/**
  What the worker's `run` loop guarantees, and what surprises it holds:
  commands go last to first, a pause ends a non-looping run, a resumed looping
  run starts its pass over from the last command, and a stop always ends the
  run with exactly one `Finished`.
 */
module RunnerProofs {
  import opened Runner

  /** A batch in which nobody pauses or stops the worker. */
  predicate Quiet(batch: seq<Request>) {
    Pause !in batch && Stop !in batch
  }

  /** The events a worker reports when it sends `commands` in this order. */
  function Executions(commands: seq<string>): seq<Event> {
    seq(|commands|, i requires 0 <= i < |commands| => Executed(commands[i]))
  }

  /** The events of `Executions` name exactly the commands they were made from. */
  lemma {:induction false} ExecutedOfExecutions(commands: seq<string>)
    ensures ExecutedCommands(Executions(commands)) == commands
    decreases |commands|
  {
    if commands != [] {
      ExecutionsCons(commands);
      ExecutedOfExecutions(commands[1..]);
    }
  }

  /** `t` repeated `m` times. */
  function Repeat<T>(t: seq<T>, m: nat): seq<T> {
    if m == 0 then [] else t + Repeat(t, m - 1)
  }

  /** Driving through a non-empty sequence of batches is one step followed by the rest. */
  lemma DriveCons(r: Run, env: seq<seq<Request>>)
    requires env != []
    ensures var (s, e) := Step(r, env[0]);
      Drive(r, env) == (Drive(s, env[1..]).0, e + Drive(s, env[1..]).1)
  {
  }

  /** A property every batch of `env` has, every batch of `env[from..]` has too. */
  lemma QuietSuffix(env: seq<seq<Request>>, from: nat)
    requires from <= |env|
    requires forall i :: 0 <= i < |env| ==> Quiet(env[i])
    ensures forall i :: 0 <= i < |env[from..]| ==> Quiet(env[from..][i])
  {
    forall i | 0 <= i < |env[from..]| ensures Quiet(env[from..][i]) {
      assert env[from..][i] == env[i + from];
    }
  }

  /** Driving through `env1` and then `env2` is driving through both at once. */
  lemma {:induction false} DriveAppend(r: Run, env1: seq<seq<Request>>, env2: seq<seq<Request>>)
    ensures var (s, e) := Drive(r, env1);
      Drive(r, env1 + env2) == (Drive(s, env2).0, e + Drive(s, env2).1)
    decreases |env1|
  {
    if env1 == [] {
      assert env1 + env2 == env2;
      assert [] + Drive(r, env2).1 == Drive(r, env2).1;
    } else {
      var env := env1 + env2;
      assert env[0] == env1[0];
      assert env[1..] == env1[1..] + env2;
      var (s1, e1) := Step(r, env1[0]);
      DriveCons(r, env1);
      DriveCons(r, env);
      DriveAppend(s1, env1[1..], env2);
      var (s, e) := Drive(s1, env1[1..]);
      assert e1 + (e + Drive(s, env2).1) == (e1 + e) + Drive(s, env2).1;
    }
  }

  /** Once `run` has returned, nothing more happens. */
  lemma {:induction false} ExitedStays(r: Run, env: seq<seq<Request>>)
    requires r.phase == Exited
    ensures Drive(r, env).0.phase == Exited && Drive(r, env).1 == []
    decreases |env|
  {
    if env != [] {
      ExitedStays(Step(r, env[0]).0, env[1..]);
    }
  }

  /** The reports of a non-empty command sequence: the first command's, then the rest's. */
  lemma ExecutionsCons(commands: seq<string>)
    requires commands != []
    ensures Executions(commands) == [Executed(commands[0])] + Executions(commands[1..])
  {
  }

  /** An undisturbed per-command test with commands left sends the next one of the reversed list. */
  lemma CommandStep(r: Run, batch: seq<Request>)
    requires r.phase.CommandTest? && r.phase.done < |r.commands|
    requires r.running && !r.paused && Quiet(batch)
    ensures var (s, e) := Step(r, batch);
      && e == [Executed(Reversed(r.commands)[r.phase.done])]
      && s.phase == CommandTest(r.phase.done + 1) && s.running && !s.paused
  {
  }

  /**
    The rest of an undisturbed pass: from the per-command test with `k`
    commands done, the remaining commands of the reversed list are sent in
    order, and then the run finishes or goes back to its `while` test.
   */
  lemma {:induction false} PassRest(r: Run, env: seq<seq<Request>>)
    requires r.phase.CommandTest? && r.phase.done <= |r.commands|
    requires r.running && !r.paused
    requires |env| == |r.commands| - r.phase.done + 1
    requires forall i :: 0 <= i < |env| ==> Quiet(env[i])
    ensures var (s, t) := Drive(r, env);
      && t == Executions(Reversed(r.commands)[r.phase.done..]) + (if r.loopEnabled then [] else [Finished])
      && s.phase == (if r.loopEnabled then LoopTest else Exited)
      && s.running && !s.paused
    decreases |r.commands| - r.phase.done
  {
    var k := r.phase.done;
    DriveCons(r, env);
    if k == |r.commands| {
      assert Reversed(r.commands)[k..] == [];
      assert env[1..] == [];
    } else {
      var rest := Reversed(r.commands)[k..];
      CommandStep(r, env[0]);
      var (s, e) := Step(r, env[0]);
      QuietSuffix(env, 1);
      PassRest(s, env[1..]);
      assert rest[1..] == Reversed(r.commands)[k + 1..];
      ExecutionsCons(rest);
    }
  }

  /** The two moves from the `while` test to the first per-command test of an undisturbed run. */
  lemma EnterPass(r: Run, env: seq<seq<Request>>)
    requires r.running && !r.paused && r.phase == LoopTest
    requires |env| >= 2 && Quiet(env[0]) && Quiet(env[1])
    ensures var (s, t) := Drive(r, env[..2]);
      t == [] && s.phase == CommandTest(0) && s.running && !s.paused
      && s.commands == r.commands && s.loopEnabled == r.loopEnabled
  {
    var two := env[..2];
    DriveCons(r, two);
    var (r1, _) := Step(r, two[0]);
    DriveCons(r1, two[1..]);
    assert two[1..][1..] == [];
  }

  /** One undisturbed pass from the `while` test: every command, last to first. */
  lemma FullPass(r: Run, env: seq<seq<Request>>)
    requires r.running && !r.paused && r.phase == LoopTest
    requires |env| == |r.commands| + 3
    requires forall i :: 0 <= i < |env| ==> Quiet(env[i])
    ensures var (s, t) := Drive(r, env);
      && t == Executions(Reversed(r.commands)) + (if r.loopEnabled then [] else [Finished])
      && s.phase == (if r.loopEnabled then LoopTest else Exited)
      && s.running && !s.paused
  {
    EnterPass(r, env);
    var (r2, _) := Drive(r, env[..2]);
    QuietSuffix(env, 2);
    PassRest(r2, env[2..]);
    assert env == env[..2] + env[2..];
    DriveAppend(r, env[..2], env[2..]);
    assert Reversed(r.commands)[0..] == Reversed(r.commands);
  }

  /**
    A non-looping run that nobody pauses or stops sends every command exactly
    once, last to first, then reports `Finished` and sends nothing more.
   */
  lemma SinglePass(commands: seq<string>, env: seq<seq<Request>>)
    requires |env| >= |commands| + 3
    requires forall i :: 0 <= i < |env| ==> Quiet(env[i])
    ensures var (s, t) := Drive(Start(commands, false), env);
      t == Executions(Reversed(commands)) + [Finished] && s.phase == Exited
  {
    var r0 := Start(commands, false);
    var n := |commands| + 3;
    var head, tail := env[..n], env[n..];
    assert env == head + tail;
    assert forall i :: 0 <= i < |head| ==> Quiet(head[i]) by {
      forall i | 0 <= i < |head| ensures Quiet(head[i]) { assert head[i] == env[i]; }
    }
    FullPass(r0, head);
    DriveAppend(r0, head, tail);
    ExitedStays(Drive(r0, head).0, tail);
  }

  /** Left alone, a looping run repeats the whole reversed pass over and over and never finishes. */
  lemma {:induction false} LoopingPasses(r: Run, m: nat, env: seq<seq<Request>>)
    requires r.loopEnabled && r.running && !r.paused && r.phase == LoopTest
    requires |env| == PassesLength(m, |r.commands| + 3)
    requires forall i :: 0 <= i < |env| ==> Quiet(env[i])
    ensures var (s, t) := Drive(r, env);
      t == Repeat(Executions(Reversed(r.commands)), m) && s.phase == LoopTest
    decreases m
  {
    if m == 0 {
      assert env == [];
    } else {
      var n := |r.commands| + 3;
      var head, tail := env[..n], env[n..];
      assert env == head + tail;
      assert forall i :: 0 <= i < |head| ==> Quiet(head[i]) by {
        forall i | 0 <= i < |head| ensures Quiet(head[i]) { assert head[i] == env[i]; }
      }
      QuietSuffix(env, n);
      FullPass(r, head);
      DriveAppend(r, head, tail);
      var (s1, t1) := Drive(r, head);
      LoopingPasses(s1, m - 1, tail);
      assert Drive(r, env).1 == t1 + Drive(s1, tail).1;
    }
  }

  /** The number of batches in `m` passes of `n` batches each. */
  function PassesLength(m: nat, n: nat): nat {
    if m == 0 then 0 else n + PassesLength(m - 1, n)
  }

  /** A looping run never finishes unless somebody stops it. */
  lemma {:induction false} LoopingRunNeedsStop(r: Run, env: seq<seq<Request>>)
    requires r.loopEnabled && r.running && r.phase != Exited
    requires forall i :: 0 <= i < |env| ==> Stop !in env[i]
    ensures Drive(r, env).0.phase != Exited
    ensures Finished !in Drive(r, env).1
    decreases |env|
  {
    if env != [] {
      var (s, e) := Step(r, env[0]);
      assert s.phase != Exited;
      assert forall i :: 0 <= i < |env[1..]| ==> Stop !in env[1..][i] by {
        forall i | 0 <= i < |env[1..]| ensures Stop !in env[1..][i] {
          assert env[1..][i] == env[i + 1];
        }
      }
      LoopingRunNeedsStop(s, env[1..]);
    }
  }

  /** Before a pass starts (or just after), the first command sent, if any, is the last of the list. */
  lemma {:induction false} NextPassStartsFromLast(r: Run, env: seq<seq<Request>>)
    requires r.phase == LoopTest || r.phase == PauseTest || r.phase == CommandTest(0) || r.phase == Exited
    ensures var c := ExecutedCommands(Drive(r, env).1);
      c == [] || (r.commands != [] && c[0] == r.commands[|r.commands| - 1])
    decreases |env|
  {
    if env != [] {
      var (s, e) := Step(r, env[0]);
      var (t, f) := Drive(s, env[1..]);
      ExecutedCommandsAppend(e, f);
      if e != [] && e[0].Executed? {
        assert ExecutedCommands(e) == [e[0].command];
      } else {
        assert ExecutedCommands(e) == [] by {
          assert e == [] || e == [Finished];
        }
        NextPassStartsFromLast(s, env[1..]);
      }
    }
  }

  /**
    A stop or a pause seen at the per-command test blocks that command: the
    pass is abandoned, so every later command of it is skipped too. A
    non-looping run finishes there and then, without waiting for a resume; a
    looping run, whenever it sends a command again, starts over from the last
    one of the list.
   */
  lemma InterruptAbandonsPass(r: Run, batch: seq<Request>, env: seq<seq<Request>>)
    requires r.phase.CommandTest?
    requires !Deliver(r, batch).running || Deliver(r, batch).paused
    ensures var (s, e) := Step(r, batch);
      && ExecutedCommands(e) == []
      && (!r.loopEnabled ==> s.phase == Exited && e == [Finished] && Drive(s, env).1 == [])
      && (var c := ExecutedCommands(Drive(s, env).1); c == [] || (r.commands != [] && c[0] == r.commands[|r.commands| - 1]))
  {
    var (s, e) := Step(r, batch);
    assert e == [] || e == [Finished];
    if s.phase == Exited {
      ExitedStays(s, env);
    }
    NextPassStartsFromLast(s, env);
  }

  /**
    While a running worker stays paused it sends nothing: it circles between
    its `while` test and its pause test until someone resumes or stops it.
   */
  lemma {:induction false} PausedRunWaits(r: Run, env: seq<seq<Request>>)
    requires r.running && r.paused && (r.phase == LoopTest || r.phase == PauseTest)
    requires forall i :: 0 <= i < |env| ==> Resume !in env[i] && Stop !in env[i]
    ensures var (s, t) := Drive(r, env);
      t == [] && s.running && s.paused && (s.phase == LoopTest || s.phase == PauseTest)
    decreases |env|
  {
    if env != [] {
      var (s, e) := Step(r, env[0]);
      assert forall i :: 0 <= i < |env[1..]| ==> Resume !in env[1..][i] && Stop !in env[1..][i] by {
        forall i | 0 <= i < |env[1..]| ensures Resume !in env[1..][i] && Stop !in env[1..][i] {
          assert env[1..][i] == env[i + 1];
        }
      }
      PausedRunWaits(s, env[1..]);
    }
  }

  /**
    Resuming a looping run repeats commands: with ["a", "b", "c"], a pause
    after "c" and "b" were sent, then a resume, sends "c" again, while "a"
    has not been sent at all.
   */
  lemma ResumeRepeatsCommands()
    ensures ExecutedCommands(
      Drive(Start(["a", "b", "c"], true), [[], [], [], [], [Pause], [Resume], [], []]).1) == ["c", "b", "c"]
  {
    var env: seq<seq<Request>> := [[], [], [], [], [Pause], [Resume], [], []];
    var r0 := Start(["a", "b", "c"], true);
    var (r1, e1) := Step(r0, env[0]);
    var (r2, e2) := Step(r1, env[1]);
    var (r3, e3) := Step(r2, env[2]);
    var (r4, e4) := Step(r3, env[3]);
    var (r5, e5) := Step(r4, env[4]);
    var (r6, e6) := Step(r5, env[5]);
    var (r7, e7) := Step(r6, env[6]);
    var (r8, e8) := Step(r7, env[7]);
    assert r2.phase == CommandTest(0) && e1 + e2 == [];
    assert e3 == [Executed("c")] && e4 == [Executed("b")];
    assert r5.phase == LoopTest && r5.paused && e5 == [];
    assert r7.phase == CommandTest(0) && !r7.paused && e6 + e7 == [];
    assert e8 == [Executed("c")];
    DriveCons(r7, env[7..]);
    DriveCons(r6, env[6..]);
    DriveCons(r5, env[5..]);
    DriveCons(r4, env[4..]);
    DriveCons(r3, env[3..]);
    DriveCons(r2, env[2..]);
    DriveCons(r1, env[1..]);
    DriveCons(r0, env);
    assert Drive(r0, env).1 == e1 + (e2 + (e3 + (e4 + (e5 + (e6 + (e7 + (e8 + [])))))));
  }

  /** What is left of the reversed list for the pass a non-looping run is in or has yet to start. */
  function Remaining(r: Run): seq<string> {
    match r.phase
    case LoopTest => Reversed(r.commands)
    case PauseTest => Reversed(r.commands)
    case CommandTest(k) => if k <= |r.commands| then Reversed(r.commands)[k..] else []
    case Exited => []
  }

  /** One move of a non-looping run sends the head of what remains, or sends nothing and keeps a prefix of it. */
  lemma RemainingStep(r: Run, batch: seq<Request>)
    requires !r.loopEnabled
    ensures var (s, e) := Step(r, batch);
      ExecutedCommands(e) + Remaining(s) <= Remaining(r)
  {
    var (s, e) := Step(r, batch);
    if e != [] && e[0].Executed? {
      assert ExecutedCommands(e) == [e[0].command];
      assert Remaining(r) == [e[0].command] + Remaining(s);
    } else {
      assert ExecutedCommands(e) == [] by {
        assert e == [] || e == [Finished];
      }
      assert [] + Remaining(s) == Remaining(s);
    }
  }

  /** From any point of a non-looping run, what it still sends is a prefix of what is left of its one pass. */
  lemma {:induction false} OnePassFrom(r: Run, env: seq<seq<Request>>)
    requires !r.loopEnabled
    ensures ExecutedCommands(Drive(r, env).1) <= Remaining(r)
    decreases |env|
  {
    if env != [] {
      var (s, e) := Step(r, env[0]);
      var (t, f) := Drive(s, env[1..]);
      DriveCons(r, env);
      ExecutedCommandsAppend(e, f);
      OnePassFrom(s, env[1..]);
      RemainingStep(r, env[0]);
      var x, y := ExecutedCommands(e), ExecutedCommands(f);
      assert x + y <= x + Remaining(s);
    }
  }

  /**
    A non-looping run, however it is paused, resumed or stopped, sends a
    prefix of the reversed list: no command twice, and none out of order.
   */
  lemma NonLoopingRunIsOnePass(commands: seq<string>, env: seq<seq<Request>>)
    ensures ExecutedCommands(Drive(Start(commands, false), env).1) <= Reversed(commands)
  {
    OnePassFrom(Start(commands, false), env);
  }

  /**
    A stop ends the run from any state, paused or not: if the `running` flag
    is already down, or goes down with the first batch, the worker has
    returned within three tests, sent no command, and reported `Finished`
    exactly once (unless it had already returned).
   */
  lemma {:induction false} StopTerminates(r: Run, env: seq<seq<Request>>)
    requires !r.running || (|env| > 0 && Stop in env[0])
    requires |env| >= Rank(r.phase)
    ensures var (s, t) := Drive(r, env);
      && s.phase == Exited
      && t == (if r.phase == Exited then [] else [Finished])
    decreases |env|
  {
    if r.phase == Exited {
      ExitedStays(r, env);
    } else {
      var (s, e) := Step(r, env[0]);
      assert !s.running;
      assert e == [] || e == [Finished];
      StopTerminates(s, env[1..]);
    }
  }

  /**
    In every run, `Finished` is reported at most once and only as the last
    event, and it is reported exactly when the run returns.
   */
  lemma {:induction false} FinishedOnlyAtEnd(r: Run, env: seq<seq<Request>>)
    ensures var (s, t) := Drive(r, env);
      && (forall i :: 0 <= i < |t| && t[i] == Finished ==> i == |t| - 1)
      && (Finished in t <==> r.phase != Exited && s.phase == Exited)
    decreases |env|
  {
    if r.phase == Exited {
      ExitedStays(r, env);
    } else if env != [] {
      var (s, e) := Step(r, env[0]);
      var (u, f) := Drive(s, env[1..]);
      if e == [Finished] {
        ExitedStays(s, env[1..]);
        assert e + f == [Finished];
      } else {
        assert Finished !in e;
        assert s.phase != Exited;
        FinishedOnlyAtEnd(s, env[1..]);
        var t := e + f;
        forall i | 0 <= i < |t| && t[i] == Finished
          ensures i == |t| - 1
        {
          assert i >= |e|;
          assert f[i - |e|] == Finished;
        }
      }
    }
  }
}
