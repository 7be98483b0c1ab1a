# Command vetting and rewriting in `gemini_sys_assistant.py`

This project models the path that a command suggested by the assistant
takes before it reaches the shell, and proves properties of that path:

- **Dispatch** (`Dispatch.Dispatch`): what the typed line asks for. Blank input
  is ignored, and `exit` or `system status` in any letter case is recognised.
  Anything else is sent as a query.
- **Extraction** (`Dispatch.ExtractCommands`): the `COMMAND:` lines of the reply.
- **The per-reply loop** (`Dispatch.HandleReply`): each extracted command is
  taken in turn through the confirmation flow.
- **Matching** (`Matching`): `is_command_safe` applies Python's start-anchored
  `re.match` with every entry of a list. The lists are the fixed
  `SAFE_COMMANDS_WHITELIST` (`Matching.Whitelist`, entry for entry) and the
  operator's trusted commands.
  - The regular-expression engine is a parameter.
  - An entry without metacharacters is matched concretely as a prefix test.
    A promoted command is stored verbatim, so a promoted command without
    metacharacters is matched this way. One with a metacharacter, such as
    `cat $HOME/.bashrc`, goes to the engine like a whitelist entry.
- **Trusted list** (`TrustStore`): the module-level list, its load with its
  fallbacks, and the append-if-absent promotion that saves the list.
- **Confirmation** (`Confirmation`): `execute_safe_command_gui` as a state
  machine.
  - The operator's answers to the popups are its events: Yes/No, or the
    entered password, `None` for Cancel.
  - A flow records the confirmation, password and trust popups, the
    executions started, the messages the flow prints itself and the trusted
    list.
  - The "Executing Command" progress dialog that each execution opens is
    `Execution.Job`'s `dialogOpen`. The "Command result:" text that `finish`
    prints later is `Confirmation.ResultText`.
- **Rewriting** (`Transform`): `sudo -S` injection, the `echo <password> |` pipe
  and the detection of graphical programs. `shlex.quote` is a parameter.
- **Execution** (`Execution`): the worker `run_proc` (`Job.RunProc`) and the timer
  callback `update_loading` (`Job.Tick`), as methods on objects. The child
  process's output is an input.
  - A `Window` holds the progress counter that all executions share.
  - A `Job` holds the result cells, the `finished` flag, the timer and the
    progress dialog.

String operations follow Python's `str`. `Text.Strip` is `strip()` over the
exact set of characters for which `str.isspace()` holds. `Text.AsciiLower`
lowers only A–Z. For the comparisons with `exit` and `system status` this
gives the same answer as `str.lower()`. The only non-ASCII characters whose
lower-case form is ASCII lower to `k` or to a two-character string, and no
keyword contains either.

The model follows the code where it differs from the intended design:
- whitelisted and trusted commands are still asked about;
- the trust offer comes right after the execution is started, whatever its outcome;
- a cancelled password prompt still runs the command with no password;
- no `-y` is ever added to `apt`;
- re-applying the rewrite pipes the password twice;
- a trusted literal (metacharacter-free) command accepts every command that begins with it;
- `\s*` after `COMMAND:` runs across line breaks.

## Model

| member | source | states |
|---|---|---|
| Matching.IsCommandSafe | gemini_sys_assistant.py:414-418 | the loop with early return answers true exactly when some entry start-matches the command, and false for an empty list |
| Matching.LiteralEntryAcceptsExtensions | gemini_sys_assistant.py:414-418 | a list holding a metacharacter-free entry accepts every command that begins with that entry |
| Matching.LiteralEntryMatchesPrefixesOnly | gemini_sys_assistant.py:416 | a literal entry accepts a command exactly when it is a prefix of it |
| Matching.ChainedCommandAfterTrustedInstall | gemini_sys_assistant.py:416 | a trusted `sudo apt install nmap` accepts `sudo apt install nmap; rm -rf /` |
| Matching.AnyMatchesAppend | gemini_sys_assistant.py:415-418 | appending an entry accepts exactly what the list accepted plus what the entry matches |
| Matching.AnyMatchesDependsOnEntriesOnly | gemini_sys_assistant.py:415-418 | two lists with the same entries accept the same commands, whatever the order or repetitions |
| TrustStore.LoadedEntries | gemini_sys_assistant.py:44-60 | a missing file, a JSON error or any other read error yields the empty list; a parsed file yields its list |
| TrustStore.TrustedCommands.constructor | gemini_sys_assistant.py:42 | the list starts empty, with nothing saved |
| TrustStore.TrustedCommands.Load | gemini_sys_assistant.py:44-60 | the global list is replaced by the loaded list; a failed load never keeps the old contents |
| TrustStore.Promoted | gemini_sys_assistant.py:545-546 | after promotion the command is in the list, the old list is a prefix of the new one, and it is appended exactly when it was absent |
| TrustStore.TrustedCommands.Promote | gemini_sys_assistant.py:543-551 | the list becomes the promoted list, the message says added or already present, and a save happens exactly when the command was appended |
| TrustStore.PromotionMessage | gemini_sys_assistant.py:548-550 | the message is "already in trusted list" exactly when promotion leaves the list unchanged, and "added to trusted list" otherwise |
| TrustStore.PromoteIdempotent | gemini_sys_assistant.py:545-551 | promoting twice equals promoting once, and the second time reports "already in trusted list" |
| TrustStore.PromoteKeepsNoDuplicates | gemini_sys_assistant.py:545-546 | a list without duplicates stays without duplicates |
| TrustStore.PromoteCountsOnce | gemini_sys_assistant.py:545-546 | a promoted command occurs exactly once if it was absent, and its count is unchanged otherwise |
| TrustStore.PromoteOnlyWidens | gemini_sys_assistant.py:546 | the promoted list accepts exactly what the old list accepted plus what the new entry matches |
| TrustStore.PromotedLiteralAcceptsExtensions | gemini_sys_assistant.py:546 | a promoted literal command makes every command that begins with it trusted |
| Transform.InjectSudoS | gemini_sys_assistant.py:473-474 | without "sudo", or with "-S" anywhere, the command is unchanged; otherwise " -S" is inserted right after the first occurrence of "sudo" |
| Transform.InjectSudoSResult | gemini_sys_assistant.py:473-474 | injection keeps "sudo" exactly when it was there, and leaves "-S" in every command containing "sudo" |
| Transform.InjectSudoSIdempotent | gemini_sys_assistant.py:473-474 | injecting twice equals injecting once |
| Transform.PipePassword | gemini_sys_assistant.py:475-476 | the command ends the result, and something is put in front of it exactly when it contains "sudo" and the password is present and not blank |
| Transform.ShellCommand | gemini_sys_assistant.py:473-476 | the injected command ends the result, and a command without "sudo" is passed unchanged |
| Transform.ShellCommandShape | gemini_sys_assistant.py:472-476 | the shell command is the injected command with the password pipe in front exactly when it has "sudo" and a non-blank password; a command without "sudo" passes unchanged, and no other flag is added |
| Transform.ShellCommandReapplied | gemini_sys_assistant.py:473-476 | re-applying the rewrite prefixes the pipe a second time when a password was piped, and changes nothing otherwise |
| Transform.SudoInsideWordIsRewritten | gemini_sys_assistant.py:473-474 | `cat sudoku.txt` contains "sudo" and is rewritten to `cat sudo -Sku.txt` |
| Transform.ForeignDashSBlocksInjection | gemini_sys_assistant.py:473 | `sudo ls -S /var` is left without `sudo -S` because of the `ls` flag |
| Transform.DetectGui | gemini_sys_assistant.py:477-482 | the loop with `break` reports a GUI program exactly when some listed name begins the stripped command or follows a space in it |
| Transform.ArgumentNamedLikeGuiApp | gemini_sys_assistant.py:481 | `ls code` counts as a GUI launch, as does a piped `sudo -S firefox` |
| Execution.NextProgress | gemini_sys_assistant.py:517 | a counter in range stays in range and never decreases, and moves up by exactly 5 while that stays below 95 |
| Execution.Window.constructor | gemini_sys_assistant.py:502 | the shared counter starts at 0, within [0, 95] |
| Execution.ProgressClosedForm | gemini_sys_assistant.py:517 | after n unfinished ticks from 0 the counter is min(5n, 95): it stays in [0, 95] and never decreases |
| Execution.Job.constructor | gemini_sys_assistant.py:466-502 | the cells are empty, the flag is down, the dialog is open at 0, the shared counter is reset to 0 and the timer runs |
| Execution.Job.RunProc | gemini_sys_assistant.py:471-496 | exactly one process is started on the rewritten command, detached exactly when it names a GUI program; the result is "Launched: " with the original command and empty stderr for a GUI program, the captured output otherwise; `finished` is raised |
| Execution.Job.Tick | gemini_sys_assistant.py:504-519 | an unfinished tick moves the shared counter to min(v + 5, 95) and shows it; the tick that sees `finished` shows 100, stops the timer, closes the dialog and hands the stored output to the callback exactly once |
| Confirmation.Classify | gemini_sys_assistant.py:573-577 | unverified exactly when neither list matches, reported as trusted exactly when the trusted list matches, and whitelisted otherwise |
| Confirmation.StartInv | gemini_sys_assistant.py:573-577 | the flow starts with the command, its verdict against the current list, that list, the confirmation popup alone, and nothing started or printed, which satisfies the flow invariant |
| Confirmation.Launched | gemini_sys_assistant.py:527-551 | starting the execution records exactly one launch of the command as given, with the password and verdict; on the unverified path the trust popup is shown next and the flow waits for its answer, otherwise the flow is done; nothing else changes: the other popups, the messages, the trusted list, the command and the verdict are kept |
| Confirmation.Step | gemini_sys_assistant.py:524-577 | a finished flow accepts no answer; an accepted answer keeps the command and the verdict, and only adds popups, executions and messages |
| Confirmation.Run | gemini_sys_assistant.py:524-577 | a sequence of answers that fits keeps the command and the verdict, and only adds popups, executions and messages |
| Confirmation.StepKeepsInv | gemini_sys_assistant.py:524-577 | every answer keeps the flow invariant: the confirmation popup comes first and only once, trust popups appear only for unverified commands, at most one execution of the command as given is started and, on the unverified path, is followed by the trust popup, the list is unchanged or promoted with the command, and a flow that ends without an execution has printed only the cancellation |
| Confirmation.RunOutcome | gemini_sys_assistant.py:524-577 | whatever the answers, a run keeps its command and its verdict, and leaves the trusted list unchanged or promoted with the command |
| Confirmation.EveryRunPassesTheGate | gemini_sys_assistant.py:524-577 | for any answers, exactly one confirmation popup is shown, first, with the "already trusted" message exactly when the trusted list matches; a trust offer appears only when no list matched; the trusted list ends unchanged or promoted with this command on that path; at most one execution of the command as suggested is started, and on the unverified path an execution is always followed by the trust offer |
| Confirmation.RejectionCancels | gemini_sys_assistant.py:552-553 | answering No first prints only "Command execution cancelled.", starts nothing, keeps the trusted list, and accepts no further answer |
| Confirmation.NoLaunchWithoutConsent | gemini_sys_assistant.py:525-572 | an execution is started only if the first answer is Yes |
| Confirmation.CancelledPasswordStillRuns | gemini_sys_assistant.py:527-551 | cancelling the password popup still starts the command, with no password, and on the unverified path at once offers trust |
| Confirmation.RecognisedCommandRunsOnYes | gemini_sys_assistant.py:554-570 | a recognised command without "sudo" runs after one Yes with the empty password and is never offered for trust |
| Confirmation.TrustAnswer | gemini_sys_assistant.py:543-551 | Yes on the trust popup promotes the list and prints the promotion message; No changes nothing |
| Confirmation.TrustedOnceTrustedForever | gemini_sys_assistant.py:543-577 | after confirming, entering a password and trusting an unverified literal command, the list has it appended; the same command is then reported as already trusted and still asked about, and so is every command that begins with it |
| Confirmation.ResultText | gemini_sys_assistant.py:529-561 | the text is "Command result:" and a line break, then, on the unverified path only, the line "Output of '<command>':", then stdout, a line break and stderr, with nothing else |
| Dispatch.Dispatch | gemini_sys_assistant.py:381-390 | blank input, and only blank input, is ignored; the program quits exactly when the stripped input lowers to `exit` and shows the status exactly when it lowers to `system status`; every other input is sent as a query, and the query is the stripped input |
| Dispatch.KeywordsExactly | gemini_sys_assistant.py:387-390 | the program quits exactly when the stripped input is four characters spelling `exit` in some mix of letter cases, and shows the status exactly when it is `system status` spelled that way |
| Dispatch.DispatchIgnoresSurroundingSpace | gemini_sys_assistant.py:382 | white space around the input never changes the action |
| Dispatch.KeywordsInAnyCase | gemini_sys_assistant.py:387-390 | `exit` and `system status` in any letter case, with any surrounding white space, quit and show the status |
| Dispatch.TakeLine | gemini_sys_assistant.py:409 | `(.*)` takes the longest prefix, possibly empty, without a line break: the taken text is a prefix of the input, holds no line break, and is followed by a line break unless it reaches the end |
| Dispatch.Scan | gemini_sys_assistant.py:409 | every command found by the scan holds no line break and does not begin with white space |
| Dispatch.ExtractCommands | gemini_sys_assistant.py:409 | no extracted command contains a line break or begins with white space |
| Dispatch.ExtractByLines | gemini_sys_assistant.py:409 | the extraction equals the line-by-line reading (each line starting with `COMMAND:` gives the rest of the line without leading white space), provided every marker line except the last names a command on that line |
| Dispatch.MarkerSpansLines | gemini_sys_assistant.py:409 | a marker followed by white space, line breaks included, takes its command from the next non-blank text |
| Dispatch.MarkerOnItsOwnLine | gemini_sys_assistant.py:409 | `COMMAND:` followed by a line `ls` yields the command `ls` |
| Dispatch.HandleCommand | gemini_sys_assistant.py:524-577 | one call completes exactly when the answers close every popup it shows, and its flow is then the confirmation run of those answers from the list before the call; the stored list becomes the flow's, unchanged or promoted with the command; an incomplete call leaves the list alone; the list is saved once exactly when it changed |
| Dispatch.HandleReply | gemini_sys_assistant.py:409-412 | the commands are handled in order, each flow being the confirmation run of its answers from the list the previous ones left, which it keeps or promotes with itself; the stored list is the last of these; one save is added for each list that changed; the loop stops early only when the answers run out or do not fit |
| Dispatch.HandledCommandPassedTheGate | gemini_sys_assistant.py:410-412 | every command the loop handled showed its confirmation popup first, judged against the list at that point, and started at most one execution, only after a first Yes |
| Dispatch.ChainAddsOnlyItsCommands | gemini_sys_assistant.py:410-412 | handling a reply removes no trusted entry and adds only commands of that reply |
| Dispatch.TrustCarriesThroughReply | gemini_sys_assistant.py:410-412 | a literal command trusted earlier in a reply makes it, and every command beginning with it, trusted when suggested later in the same reply |
| Text.ReplaceFirst | gemini_sys_assistant.py:474 | `replace(old, new, 1)`: unchanged without an occurrence, otherwise the first occurrence is replaced |
| Text.StripShape | gemini_sys_assistant.py:382 | `strip()` returns a contiguous slice of its input with only white space around it, and neither end of the result is white space |
| Text.StripIgnoresSurroundingSpace | gemini_sys_assistant.py:382 | white space added on either side never changes the result of `strip()` |
| Text.StripIdempotent | gemini_sys_assistant.py:382 | `strip()` applied twice equals applied once |
| Text.AsciiLowerIs | gemini_sys_assistant.py:387-390 | for a target without capitals, lowering gives the target exactly when the input has its length and each character is the target's or, for a lower-case letter, its capital |

## Left out

- The Gemini client, the prompt and its error messages are not modelled; the reply is an input of `Dispatch.HandleReply`.
- The system probes (`df`, `free`, `ps`, `ip`, `uptime`) and the psutil/GPUtil monitoring are not modelled: they are I/O and floating point. `Dispatch.Dispatch` only selects `ShowStatus`.
- Qt widgets, styles, colours and the HTML of `append_output` are not modelled. Popups are events; printed messages are a list of strings.
- `threading`, `QTimer` and `subprocess.Popen` are not modelled as concurrency. The worker is one call of `RunProc`, the timer is repeated calls of `Tick`, and the child's output is an argument.
- An exception raised inside the worker is not modelled. It would leave `finished` down and the timer running for ever.
- Reading and writing the JSON file, and logging, are not modelled.
  - A load is given its outcome: missing, malformed, unreadable, or a parsed list.
  - A JSON document that parses to something other than a list of strings is not modelled.
  - A save is recorded as the list handed to it. A failed save is only logged by the source and changes nothing in memory.
- The internals of Python's regular-expression engine and of `shlex.quote` are not modelled. Both are parameters. Only the literal-entry case of matching is defined concretely.
- `Matching.Whitelist` carries no lemma about the shape of its 32 entries. They are reproduced verbatim and handed to the engine parameter like any other pattern.
- The `hasattr(result, "stdout")` error branches of `finish` are not modelled. The result object built by `update_loading` always has `stdout`, so those branches cannot run.
- The unused attribute `self.user_trusted_commands` and the "Executing Command" progress popup's styling are not modelled.
- A pattern that does not compile is not modelled: `RegexEngine` is total, so every command gets a verdict.
  - In the source, `re.match` raises `re.error` on such a pattern.
  - Promotion saves any confirmed command verbatim, e.g. `echo "(hi"`.
  - Every later `is_command_safe` call on the trusted list that reaches that entry raises (lines 573-576). No popup is shown, and the rest of the reply's commands are skipped.
  - The list is saved, so this persists across restarts.
