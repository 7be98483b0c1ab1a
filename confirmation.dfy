/** `execute_safe_command_gui`: the verdict on a suggested command, the
    confirmation prompt it chooses, the optional sudo password prompt, the
    start of the execution and the trust offer.

    The source chains these through nested callbacks (`after_confirm`,
    `after_confirm_safe`, `run_command`, `after_trust`); here they are one
    state machine whose events are the operator's answers to the popups. The
    model follows the code rather than the intended design:
    - whitelisted and trusted commands are still confirmed;
    - the trust offer follows the start of the execution at once and does not
      depend on its outcome (no event carries the outcome);
    - a cancelled password prompt gives `None`, and the command still runs;
    - no `-y` flag is added to apt (see `Transform.ShellCommandShape`). */
module Confirmation {
  import opened Text
  import opened Matching
  import opened TrustStore
  import opened Execution

  datatype Verdict = Whitelisted | Trusted | Unverified

  /** The two `is_command_safe` calls of `execute_safe_command_gui`: a command
      no list matches is unverified; otherwise it is reported as trusted when
      the trusted list matches, whether or not the whitelist does. */
  function Classify(engine: RegexEngine, trusted: seq<string>, command: string): (v: Verdict)
    ensures v == Unverified <==> !AnyMatches(engine, Whitelist, command) && !AnyMatches(engine, trusted, command)
    ensures v == Trusted <==> AnyMatches(engine, trusted, command)
    ensures v == Whitelisted <==> AnyMatches(engine, Whitelist, command) && !AnyMatches(engine, trusted, command)
  {
    if !AnyMatches(engine, Whitelist, command) && !AnyMatches(engine, trusted, command) then Unverified
    else if AnyMatches(engine, trusted, command) then Trusted
    else Whitelisted
  }

  datatype Popup = Popup(title: string, message: string)

  const ConfirmTitle := "Confirm Command Execution"
  const SudoTitle := "Sudo Authentication"
  const TrustTitle := "Trust Command"
  const Cancelled := "Command execution cancelled."

  function ConfirmMessage(v: Verdict, command: string): string {
    match v
    case Unverified => "Command '" + command + "' is not recognized as safe.\nDo you really want to execute it?"
    case Trusted => "Command '" + command + "' is already trusted.\nExecute it?"
    case Whitelisted => "Are you sure you want to execute the following command?\n\n" + command
  }

  function ConfirmPopup(v: Verdict, command: string): Popup {
    Popup(ConfirmTitle, ConfirmMessage(v, command))
  }

  const PasswordPopup := Popup(SudoTitle, "Enter your sudo password:")

  function TrustPopup(command: string): Popup {
    Popup(TrustTitle, "Do you want to add '" + command + "' to your trusted commands?")
  }

  /** Where the flow waits: on the confirmation popup, on the password popup,
      on the trust popup, or nowhere. */
  datatype Stage = Confirming | AskingPassword | OfferingTrust | Done

  /** A call of `execute_command_thread`: the command as suggested, the
      password argument, and the verdict that selects the `finish` callback. */
  datatype Launch = Launch(command: string, password: Option<string>, verdict: Verdict)

  datatype Flow = Flow(
    command: string,
    verdict: Verdict,
    stage: Stage,
    trusted: seq<string>,      // user_trusted_commands
    popups: seq<Popup>,        // confirmation, password and trust popups, in order
    launches: seq<Launch>,     // executions started, in order
    log: seq<string>)          // messages the flow itself appends to the output

  /** An answer to the popup on screen: Yes/No for the confirmation and trust
      popups, the text entered (or `None` for Cancel) for the password popup. */
  datatype Event = Answer(yes: bool) | Password(entered: Option<string>)

  /** The single confirmation popup that `execute_safe_command_gui` opens. */
  function Start(engine: RegexEngine, trusted: seq<string>, command: string): Flow {
    var v := Classify(engine, trusted, command);
    Flow(command, v, Confirming, trusted, [ConfirmPopup(v, command)], [], [])
  }

  /** `run_command(pwd)` followed, on the unverified path, by the trust popup. */
  function Launched(f: Flow, password: Option<string>): (r: Flow)
    ensures r.launches == f.launches + [Launch(f.command, password, f.verdict)]
    ensures r.stage == OfferingTrust <==> f.verdict == Unverified
    ensures r.stage != OfferingTrust ==> r.stage == Done
    ensures r.popups == f.popups + (if f.verdict == Unverified then [TrustPopup(f.command)] else [])
    ensures r.command == f.command && r.verdict == f.verdict && r.trusted == f.trusted && r.log == f.log
  {
    var g := f.(launches := f.launches + [Launch(f.command, password, f.verdict)]);
    if f.verdict == Unverified then g.(stage := OfferingTrust, popups := g.popups + [TrustPopup(f.command)])
    else g.(stage := Done)
  }

  /** One answer; `None` when the answer does not belong to the popup on screen. */
  function Step(f: Flow, e: Event): (r: Option<Flow>)
    ensures f.stage == Done ==> r.None?
    ensures r.Some? ==> && r.value.command == f.command && r.value.verdict == f.verdict
                        && f.popups <= r.value.popups && f.launches <= r.value.launches && f.log <= r.value.log
  {
    match e
    case Answer(yes) =>
      if f.stage == Confirming then
        if !yes then Some(f.(stage := Done, log := f.log + [Cancelled]))
        else if Contains(f.command, "sudo") then Some(f.(stage := AskingPassword, popups := f.popups + [PasswordPopup]))
        else Some(Launched(f, Some("")))
      else if f.stage == OfferingTrust then
        if yes then
          Some(f.(stage := Done,
                  trusted := Promoted(f.trusted, f.command),
                  log := f.log + [PromotionMessage(f.trusted, f.command)]))
        else Some(f.(stage := Done))
      else None
    case Password(entered) =>
      if f.stage == AskingPassword then Some(Launched(f, entered)) else None
  }

  /** The answers in order; `None` as soon as one does not fit. */
  function Run(f: Flow, events: seq<Event>): (r: Option<Flow>)
    decreases |events|
    ensures r.Some? ==> && r.value.command == f.command && r.value.verdict == f.verdict
                        && f.popups <= r.value.popups && f.launches <= r.value.launches && f.log <= r.value.log
  {
    if events == [] then Some(f)
    else match Step(f, events[0])
      case None => None
      case Some(g) => Run(g, events[1..])
  }

  /** What holds of every flow reached from `Start(engine, trusted0, command0)`. */
  ghost predicate Inv(v0: Verdict, trusted0: seq<string>, command0: string, f: Flow) {
    && f.command == command0
    && f.verdict == v0
    && |f.popups| >= 1
    && f.popups[0] == ConfirmPopup(f.verdict, command0)
    && (forall i :: 1 <= i < |f.popups| ==> f.popups[i].title != ConfirmTitle)
    && (forall i :: 0 <= i < |f.popups| && f.popups[i].title == TrustTitle ==> f.verdict == Unverified)
    && |f.launches| <= 1
    && (f.launches != [] ==> f.launches[0].command == command0 && f.launches[0].verdict == f.verdict)
    && (f.launches != [] && f.verdict == Unverified ==> f.popups[|f.popups| - 1] == TrustPopup(command0))
    && (f.stage == Confirming ==> |f.popups| == 1 && f.launches == [] && f.log == [] && f.trusted == trusted0)
    && (f.stage == AskingPassword ==> Contains(command0, "sudo") && f.launches == [] && f.log == [] && f.trusted == trusted0)
    && (f.stage == OfferingTrust ==> f.verdict == Unverified && |f.launches| == 1 && f.trusted == trusted0)
    && (f.trusted == trusted0 || (f.verdict == Unverified && f.trusted == Promoted(trusted0, command0)))
    && (f.stage == Done && f.launches == [] ==> f.log == [Cancelled] && f.trusted == trusted0)
  }

  lemma DistinctTitles()
    ensures SudoTitle != ConfirmTitle && TrustTitle != ConfirmTitle && SudoTitle != TrustTitle
  {
    assert |SudoTitle| != |ConfirmTitle| && |TrustTitle| != |ConfirmTitle|;
    assert SudoTitle[0] != TrustTitle[0];
  }

  lemma StartInv(engine: RegexEngine, trusted0: seq<string>, command0: string)
    ensures Start(engine, trusted0, command0).stage == Confirming
    ensures Inv(Classify(engine, trusted0, command0), trusted0, command0, Start(engine, trusted0, command0))
  {
  }

  lemma LaunchedUnverifiedKeepsInv(v0: Verdict, trusted0: seq<string>, command0: string, f: Flow, password: Option<string>)
    requires Inv(v0, trusted0, command0, f) && f.verdict == Unverified
    requires f.stage == Confirming || f.stage == AskingPassword
    ensures Inv(v0, trusted0, command0, Launched(f, password))
  {
    DistinctTitles();
    var g := Launched(f, password);
    assert g.launches == [Launch(command0, password, f.verdict)];
    assert g.popups == f.popups + [TrustPopup(command0)];
    assert forall i :: 1 <= i < |g.popups| ==> g.popups[i].title != ConfirmTitle;
  }

  lemma LaunchedRecognisedKeepsInv(v0: Verdict, trusted0: seq<string>, command0: string, f: Flow, password: Option<string>)
    requires Inv(v0, trusted0, command0, f) && f.verdict != Unverified
    requires f.stage == Confirming || f.stage == AskingPassword
    ensures Inv(v0, trusted0, command0, Launched(f, password))
  {
    assert f.launches == [] && f.trusted == trusted0;
    var g := Launched(f, password);
    assert g == f.(launches := [Launch(command0, password, f.verdict)], stage := Done);
    RecognisedDoneKeepsInv(v0, trusted0, command0, f, g);
  }

  lemma RecognisedDoneKeepsInv(v0: Verdict, trusted0: seq<string>, command0: string, f: Flow, g: Flow)
    requires Inv(v0, trusted0, command0, f) && f.trusted == trusted0 && f.verdict != Unverified
    requires g.command == f.command && g.verdict == f.verdict && g.stage == Done
    requires g.popups == f.popups && g.trusted == f.trusted && g.log == f.log
    requires |g.launches| == 1 && g.launches[0].command == command0 && g.launches[0].verdict == f.verdict
    ensures Inv(v0, trusted0, command0, g)
  {
  }

  lemma LaunchedKeepsInv(v0: Verdict, trusted0: seq<string>, command0: string, f: Flow, password: Option<string>)
    requires Inv(v0, trusted0, command0, f)
    requires f.stage == Confirming || f.stage == AskingPassword
    ensures Inv(v0, trusted0, command0, Launched(f, password))
  {
    if f.verdict == Unverified {
      LaunchedUnverifiedKeepsInv(v0, trusted0, command0, f, password);
    } else {
      LaunchedRecognisedKeepsInv(v0, trusted0, command0, f, password);
    }
  }

  lemma AskPasswordKeepsInv(v0: Verdict, trusted0: seq<string>, command0: string, f: Flow)
    requires Inv(v0, trusted0, command0, f)
    requires f.stage == Confirming && Contains(command0, "sudo")
    ensures Inv(v0, trusted0, command0, f.(stage := AskingPassword, popups := f.popups + [PasswordPopup]))
  {
    DistinctTitles();
    var g := f.(stage := AskingPassword, popups := f.popups + [PasswordPopup]);
    assert g.popups == [f.popups[0], PasswordPopup];
  }

  lemma TrustKeepsInv(v0: Verdict, trusted0: seq<string>, command0: string, f: Flow, yes: bool)
    requires Inv(v0, trusted0, command0, f)
    requires f.stage == OfferingTrust
    ensures Inv(v0, trusted0, command0, Step(f, Answer(yes)).value)
  {
  }

  lemma CancelKeepsInv(v0: Verdict, trusted0: seq<string>, command0: string, f: Flow)
    requires Inv(v0, trusted0, command0, f) && f.stage == Confirming
    ensures Inv(v0, trusted0, command0, f.(stage := Done, log := f.log + [Cancelled]))
  {
    assert f.launches == [] && f.log == [];
  }

  lemma StepKeepsInv(v0: Verdict, trusted0: seq<string>, command0: string, f: Flow, e: Event)
    requires Inv(v0, trusted0, command0, f)
    ensures Step(f, e).Some? ==> Inv(v0, trusted0, command0, Step(f, e).value)
  {
    match e
    case Answer(yes) =>
      if f.stage == Confirming {
        if !yes {
          assert Step(f, e) == Some(f.(stage := Done, log := f.log + [Cancelled]));
          CancelKeepsInv(v0, trusted0, command0, f);
        } else if Contains(f.command, "sudo") {
          assert Step(f, e) == Some(f.(stage := AskingPassword, popups := f.popups + [PasswordPopup]));
          AskPasswordKeepsInv(v0, trusted0, command0, f);
        } else {
          assert Step(f, e) == Some(Launched(f, Some("")));
          LaunchedKeepsInv(v0, trusted0, command0, f, Some(""));
        }
      } else if f.stage == OfferingTrust {
        TrustKeepsInv(v0, trusted0, command0, f, yes);
      }
    case Password(entered) =>
      if f.stage == AskingPassword {
        assert Step(f, e) == Some(Launched(f, entered));
        LaunchedKeepsInv(v0, trusted0, command0, f, entered);
      }
  }

  lemma {:induction false} RunKeepsInv(v0: Verdict, trusted0: seq<string>, command0: string, f: Flow, events: seq<Event>)
    requires Inv(v0, trusted0, command0, f)
    ensures Run(f, events).Some? ==> Inv(v0, trusted0, command0, Run(f, events).value)
    decreases |events|
  {
    if events != [] {
      StepKeepsInv(v0, trusted0, command0, f, events[0]);
      match Step(f, events[0])
      case None =>
      case Some(g) => RunKeepsInv(v0, trusted0, command0, g, events[1..]);
    }
  }

  /** A run keeps its command and verdict and leaves the trusted list as it
      was or promoted with the command. */
  lemma RunOutcome(engine: RegexEngine, trusted: seq<string>, command: string, events: seq<Event>)
    ensures Run(Start(engine, trusted, command), events).Some? ==>
              var g := Run(Start(engine, trusted, command), events).value;
              && g.command == command && g.verdict == Classify(engine, trusted, command)
              && (g.trusted == trusted || g.trusted == Promoted(trusted, command))
  {
    StartInv(engine, trusted, command);
    RunKeepsInv(Classify(engine, trusted, command), trusted, command, Start(engine, trusted, command), events);
  }

  /** Every command, whatever the operator answers:
      - meets exactly one confirmation popup, the first one shown, whose
        message says "already trusted" exactly when the trusted list matches;
      - is offered for trust only when no list matched it;
      - leaves the trusted list as it was, or promoted with this very command
        on the unverified path;
      - is started at most once, as suggested. */
  lemma EveryRunPassesTheGate(engine: RegexEngine, trusted: seq<string>, command: string, events: seq<Event>)
    ensures var v := Classify(engine, trusted, command);
            Run(Start(engine, trusted, command), events).Some? ==>
              var g := Run(Start(engine, trusted, command), events).value;
              && |g.popups| >= 1
              && g.popups[0] == ConfirmPopup(v, command)
              && (forall i :: 1 <= i < |g.popups| ==> g.popups[i].title != ConfirmTitle)
              && (g.popups[0].message == ConfirmMessage(Trusted, command) <==> AnyMatches(engine, trusted, command))
              && (forall i :: 0 <= i < |g.popups| && g.popups[i].title == TrustTitle ==>
                    !AnyMatches(engine, Whitelist, command) && !AnyMatches(engine, trusted, command))
              && (g.trusted == trusted || (v == Unverified && g.trusted == Promoted(trusted, command)))
              && |g.launches| <= 1
              && (forall l :: l in g.launches ==> l.command == command)
              && (g.launches != [] && v == Unverified ==> g.popups[|g.popups| - 1] == TrustPopup(command))
  {
    var f := Start(engine, trusted, command);
    StartInv(engine, trusted, command);
    RunKeepsInv(Classify(engine, trusted, command), trusted, command, f, events);
    var v := Classify(engine, trusted, command);
    if v != Trusted {
      assert ConfirmMessage(v, command) != ConfirmMessage(Trusted, command) by {
        var m := ConfirmMessage(v, command);
        var t := ConfirmMessage(Trusted, command);
        if v == Unverified {
          assert |m| > |t|;
        } else {
          var w := "Are you sure you want to execute the following command?\n\n";
          var c := "Command '";
          assert m == w + command && m[0] == w[0];
          assert t == c + command + "' is already trusted.\nExecute it?" && t[0] == c[0];
        }
      }
    }
  }

  lemma {:induction false} RunFromDone(f: Flow, events: seq<Event>)
    requires f.stage == Done
    ensures Run(f, events).Some? ==> events == [] && Run(f, events).value == f
  {
  }

  /** Answering No to the confirmation popup prints exactly the cancellation
      message, starts nothing, leaves the trusted list alone and ends the flow:
      no further answer is asked for. */
  lemma RejectionCancels(engine: RegexEngine, trusted: seq<string>, command: string, events: seq<Event>)
    requires events != [] && events[0] == Answer(false)
    ensures Run(Start(engine, trusted, command), events).Some? ==>
              && events == [Answer(false)]
              && var g := Run(Start(engine, trusted, command), events).value;
              && g.log == [Cancelled] && g.launches == [] && g.trusted == trusted && g.stage == Done
  {
    var f := Start(engine, trusted, command);
    var g := Step(f, Answer(false)).value;
    assert Run(f, events) == Run(g, events[1..]);
    RunFromDone(g, events[1..]);
  }

  /** Nothing is started unless the first answer is Yes. */
  lemma NoLaunchWithoutConsent(engine: RegexEngine, trusted: seq<string>, command: string, events: seq<Event>)
    ensures Run(Start(engine, trusted, command), events).Some? &&
            Run(Start(engine, trusted, command), events).value.launches != [] ==>
              events != [] && events[0] == Answer(true)
  {
    var f := Start(engine, trusted, command);
    if events != [] && events[0] == Answer(false) {
      RejectionCancels(engine, trusted, command, events);
    }
  }

  /** Cancelling the password popup does not abort: the command is started
      with `None` for a password and, when unverified, offered for trust at
      once. */
  lemma CancelledPasswordStillRuns(engine: RegexEngine, trusted: seq<string>, command: string)
    requires Contains(command, "sudo")
    ensures var v := Classify(engine, trusted, command);
            var r := Run(Start(engine, trusted, command), [Answer(true), Password(None)]);
            && r.Some?
            && r.value.launches == [Launch(command, None, v)]
            && (v == Unverified ==> r.value.stage == OfferingTrust && r.value.popups[|r.value.popups| - 1] == TrustPopup(command))
            && (v != Unverified ==> r.value.stage == Done)
  {
    var f := Start(engine, trusted, command);
    var g := Step(f, Answer(true)).value;
    assert g.stage == AskingPassword;
    assert Run(f, [Answer(true), Password(None)]) == Run(g, [Password(None)]);
  }

  /** A recognised command without "sudo" runs on the first Yes with the
      empty password and is never offered for trust. */
  lemma RecognisedCommandRunsOnYes(engine: RegexEngine, trusted: seq<string>, command: string)
    requires Classify(engine, trusted, command) != Unverified && !Contains(command, "sudo")
    ensures var r := Run(Start(engine, trusted, command), [Answer(true)]);
            && r.Some? && r.value.stage == Done
            && r.value.launches == [Launch(command, Some(""), Classify(engine, trusted, command))]
            && r.value.trusted == trusted && r.value.log == []
  {
    var f := Start(engine, trusted, command);
    assert Run(f, [Answer(true)]) == Run(Step(f, Answer(true)).value, []);
  }

  /** The trust popup: Yes promotes (append if absent), No changes nothing. */
  lemma TrustAnswer(v0: Verdict, trusted0: seq<string>, command0: string, f: Flow, yes: bool)
    requires Inv(v0, trusted0, command0, f) && f.stage == OfferingTrust
    ensures var g := Step(f, Answer(yes)).value;
            && Step(f, Answer(yes)).Some? && g.stage == Done && g.launches == f.launches
            && (yes ==> g.trusted == Promoted(trusted0, f.command)
                        && g.log == f.log + [PromotionMessage(trusted0, f.command)])
            && (!yes ==> g.trusted == trusted0 && g.log == f.log)
  {
  }

  /** The operator confirms an unverified literal command, enters a password
      and trusts it. The next time the same command is suggested it is
      reported as already trusted, and still asked about; and so is every
      command that begins with it. */
  lemma TrustedOnceTrustedForever(engine: RegexEngine, trusted: seq<string>, command: string, password: string, rest: string)
    requires Classify(engine, trusted, command) == Unverified
    requires Contains(command, "sudo") && IsLiteral(command)
    ensures var r := Run(Start(engine, trusted, command), [Answer(true), Password(Some(password)), Answer(true)]);
            && r.Some?
            && r.value.launches == [Launch(command, Some(password), Unverified)]
            && r.value.trusted == trusted + [command]
            && Start(engine, r.value.trusted, command).stage == Confirming
            && Start(engine, r.value.trusted, command).popups == [ConfirmPopup(Trusted, command)]
            && Classify(engine, r.value.trusted, command + rest) == Trusted
  {
    var f := Start(engine, trusted, command);
    var g := Step(f, Answer(true)).value;
    var h := Step(g, Password(Some(password))).value;
    assert Run(f, [Answer(true), Password(Some(password)), Answer(true)]) == Run(h, [Answer(true)]);
    assert command + [] == command;
    assert command !in trusted by {
      if command in trusted {
        LiteralEntryAcceptsExtensions(engine, trusted, command, []);
      }
    }
    PromotedLiteralAcceptsExtensions(engine, trusted, command, rest);
    PromotedLiteralAcceptsExtensions(engine, trusted, command, []);
    assert command + [] == command;
  }

  /** The text that `finish` appends to the output, from the result that
      `update_loading` hands it: the unverified path names the command, the
      recognised path does not. Both end with standard output, a newline and
      standard error, with nothing between the header and that ending. */
  function ResultText(v: Verdict, command: string, result: ProcessOutput): (text: string)
    ensures IsPrefix("Command result:\n", text)
    ensures var tail := result.stdout + "\n" + result.stderr;
            |tail| <= |text| && text[|text| - |tail|..] == tail
    ensures v == Unverified ==> IsPrefix("Command result:\nOutput of '" + command + "':\n", text)
    ensures v == Unverified ==>
              |text| == |"Command result:\nOutput of '" + command + "':\n"| + |result.stdout| + 1 + |result.stderr|
    ensures v != Unverified ==> |text| == |"Command result:\n"| + |result.stdout| + 1 + |result.stderr|
  {
    var tail := result.stdout + "\n" + result.stderr;
    if v == Unverified then
      var head := "Command result:\nOutput of '" + command + "':\n";
      assert (head + tail)[..|head|] == head;
      assert (head + tail)[..16] == head[..16];
      head + tail
    else
      var head := "Command result:\n";
      assert (head + tail)[..16] == head;
      head + tail
  }
}
