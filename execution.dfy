/** `execute_command_thread`: the worker body `run_proc`, which rewrites the
    command, starts it and fills the shared result cells, and the timer
    callback `update_loading`, which advances the progress dialog until it sees
    the `finished` flag and then hands the result to the callback.

    The thread and the timer are not modelled as concurrency: `RunProc` is the
    worker's whole run, `Tick` is one timer expiry, and any interleaving of the
    two is a sequence of calls. The child process is outside the model; its
    captured output is an input of `RunProc`. */
module Execution {
  import opened Text
  import opened Transform

  /** What `proc.communicate()` returned. */
  datatype ProcessOutput = ProcessOutput(stdout: string, stderr: string)

  /** A call of `subprocess.Popen` with `shell=True`; a detached one has its
      output sent to DEVNULL and is never waited for. */
  datatype Spawn = Spawn(shellCommand: string, detached: bool)

  /** The counter after one timer expiry that did not see `finished`. */
  function NextProgress(value: int): (r: int)
    ensures value <= 95 ==> value <= r <= 95
    ensures value + 5 < 95 ==> r == value + 5
  {
    if value + 5 < 95 then value + 5 else 95
  }

  /** The counter after `ticks` unfinished expiries of a fresh execution. */
  function ProgressAfter(ticks: nat): int {
    if ticks == 0 then 0 else NextProgress(ProgressAfter(ticks - 1))
  }

  /** The counter climbs by five per tick from 0 and stays at 95: it never
      reaches 100 without the finishing tick, and never decreases. */
  lemma {:induction false} ProgressClosedForm(ticks: nat)
    ensures ProgressAfter(ticks) == if 5 * ticks < 95 then 5 * ticks else 95
    ensures 0 <= ProgressAfter(ticks) <= 95
    ensures ProgressAfter(ticks) <= ProgressAfter(ticks + 1)
  {
    if ticks > 0 {
      ProgressClosedForm(ticks - 1);
    }
  }

  /** The window's state that executions share: `self._progress_value`. */
  class Window {
    var progressValue: int

    ghost predicate Valid()
      reads this
    {
      0 <= progressValue <= 95
    }

    constructor ()
      ensures Valid() && progressValue == 0
    {
      progressValue := 0;
    }
  }

  /** One call of `execute_command_thread`: the cells `run_proc_result` and
      `finished`, the timer, and the progress dialog it drives. */
  class Job {
    const command: string
    const password: Option<string>
    /** `run_proc_result`, both cells at once */
    var result: Option<ProcessOutput>
    var finished: bool
    var spawned: seq<Spawn>
    var timerRunning: bool
    /** the value shown by the progress dialog */
    var shown: int
    var dialogOpen: bool
    /** the results handed to `callback`, in order */
    var delivered: seq<ProcessOutput>

    ghost predicate Valid()
      reads this
    {
      && (finished <==> result.Some?)
      && (finished <==> |spawned| == 1)
      && |spawned| <= 1
      && 0 <= shown <= 100
      && (timerRunning ==> delivered == [] && shown <= 95 && dialogOpen)
      && (!timerRunning ==> finished && delivered == [result.value] && shown == 100 && !dialogOpen)
    }

    /** The set-up of `execute_command_thread`: the progress dialog opened at 0
        by `run_command`, the empty cells, the shared counter reset to 0 and the
        timer started. */
    constructor (w: Window, command: string, password: Option<string>)
      modifies w
      ensures Valid() && w.Valid()
      ensures this.command == command && this.password == password
      ensures w.progressValue == 0 && shown == 0 && dialogOpen && timerRunning
      ensures result == None && !finished && spawned == [] && delivered == []
    {
      this.command := command;
      this.password := password;
      result := None;
      finished := false;
      spawned := [];
      timerRunning := true;
      shown := 0;
      dialogOpen := true;
      delivered := [];
      w.progressValue := 0;
    }

    /** `run_proc`: rewrite the command, start it detached when it names a
        graphical program (reporting "Launched: " and the command as given),
        otherwise wait for its output; then raise `finished`. */
    method RunProc(quote: Quoter, output: ProcessOutput)
      requires Valid() && spawned == []
      modifies this
      ensures Valid()
      ensures var cmd := ShellCommand(quote, command, password);
              && spawned == [Spawn(cmd, LaunchesGui(cmd))]
              && result == Some(if LaunchesGui(cmd) then ProcessOutput("Launched: " + command, "") else output)
      ensures finished
      ensures timerRunning == old(timerRunning) && shown == old(shown)
      ensures dialogOpen == old(dialogOpen) && delivered == old(delivered)
    {
      var cmd := command;
      if Contains(cmd, "sudo") && !Contains(cmd, "-S") {
        cmd := ReplaceFirst(cmd, "sudo", "sudo -S");
      }
      assert cmd == InjectSudoS(command);
      if Contains(cmd, "sudo") && PasswordUsable(password) {
        cmd := "echo " + quote(password.value) + " | " + cmd;
      }
      assert cmd == ShellCommand(quote, command, password);
      var isGui := DetectGui(cmd, GuiApps);
      assert isGui == LaunchesGui(ShellCommand(quote, command, password));
      if isGui {
        spawned := spawned + [Spawn(cmd, true)];
        result := Some(ProcessOutput("Launched: " + command, ""));
        finished := true;
      } else {
        spawned := spawned + [Spawn(cmd, false)];
        result := Some(output);
        finished := true;
      }
    }

    /** `update_loading`: one expiry of the running timer. */
    method Tick(w: Window)
      requires Valid() && w.Valid() && timerRunning
      modifies this, w
      ensures Valid() && w.Valid()
      ensures old(finished) ==> && shown == 100 && !timerRunning && !dialogOpen
                                && delivered == [old(result).value]
                                && w.progressValue == old(w.progressValue)
      ensures !old(finished) ==> && w.progressValue == NextProgress(old(w.progressValue))
                                 && shown == w.progressValue && timerRunning
                                 && dialogOpen && delivered == []
      ensures old(w.progressValue) <= w.progressValue
      ensures result == old(result) && finished == old(finished) && spawned == old(spawned)
    {
      if finished {
        shown := 100;
        timerRunning := false;
        dialogOpen := false;
        delivered := delivered + [result.value];
      } else {
        w.progressValue := NextProgress(w.progressValue);
        shown := w.progressValue;
      }
    }
  }
}
