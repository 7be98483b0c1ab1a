/** `on_send`: what the typed line asks for, the `COMMAND:` lines of the
    assistant's reply, and the confirmation flows run for them one after the
    other.

    The Gemini call, the status probes and the output widget are not part of
    this model; the reply is an input. */
module Dispatch {
  import opened Text
  import opened Matching
  import opened TrustStore
  import opened Confirmation

  datatype Action = Ignore | Quit | ShowStatus | Ask(query: string)

  /** The branches of `on_send` before the Gemini call: blank input is
      ignored, `exit` and `system status` are recognised in any letter case
      after `strip()`, and anything else is sent as a query. */
  function Dispatch(raw: string): (a: Action)
    ensures a == Ignore <==> Strip(raw) == []
    ensures a == Quit <==> Strip(raw) != [] && AsciiLower(Strip(raw)) == "exit"
    ensures a == ShowStatus <==> Strip(raw) != [] && AsciiLower(Strip(raw)) == "system status"
    ensures a.Ask? <==> && Strip(raw) != []
                        && AsciiLower(Strip(raw)) != "exit" && AsciiLower(Strip(raw)) != "system status"
    ensures a.Ask? ==> a.query == Strip(raw)
  {
    var input := Strip(raw);
    if input == [] then Ignore
    else if AsciiLower(input) == "exit" then Quit
    else if AsciiLower(input) == "system status" then ShowStatus
    else Ask(input)
  }

  /** White space typed around the input never changes what it asks for. */
  lemma DispatchIgnoresSurroundingSpace(ws: string, s: string, ws': string)
    requires AllSpace(ws) && AllSpace(ws')
    ensures Dispatch(ws + s + ws') == Dispatch(s)
  {
    StripIgnoresSurroundingSpace(ws, s, ws');
  }

  /** Input whose lower-case form neither begins nor ends with white space
      is left alone by `strip()`. */
  lemma LowerTrimmed(s: string)
    requires AsciiLower(s) != [] && !IsSpace(AsciiLower(s)[0]) && !IsSpace(AsciiLower(s)[|s| - 1])
    ensures Strip(s) == s
  {
    assert LowerChar(s[0]) == AsciiLower(s)[0];
    assert LowerChar(s[|s| - 1]) == AsciiLower(s)[|s| - 1];
    StripOfStripped(s);
  }

  /** A keyword in any letter case, with white space around it, is the
      command it names. */
  lemma KeywordsInAnyCase(ws: string, s: string, ws': string)
    requires AllSpace(ws) && AllSpace(ws')
    ensures AsciiLower(s) == "exit" ==> Dispatch(ws + s + ws') == Quit
    ensures AsciiLower(s) == "system status" ==> Dispatch(ws + s + ws') == ShowStatus
  {
    DispatchIgnoresSurroundingSpace(ws, s, ws');
    var l := AsciiLower(s);
    if l == "exit" {
      assert l[0] == 'e' && l[|s| - 1] == 't';
      LowerTrimmed(s);
    } else if l == "system status" {
      assert l[0] == 's' && l[|s| - 1] == 's';
      LowerTrimmed(s);
    }
  }

  /** Quitting and the status report are chosen exactly for the two keywords
      spelled in any mixture of letter cases, once stripped. */
  lemma KeywordsExactly(raw: string)
    ensures Dispatch(raw) == Quit <==>
              |Strip(raw)| == 4 && forall k :: 0 <= k < 4 ==> CaseVariant(Strip(raw)[k], "exit"[k])
    ensures Dispatch(raw) == ShowStatus <==>
              |Strip(raw)| == 13 && forall k :: 0 <= k < 13 ==> CaseVariant(Strip(raw)[k], "system status"[k])
  {
    AsciiLowerIs(Strip(raw), "exit");
    AsciiLowerIs(Strip(raw), "system status");
  }

  /** The longest prefix of `s` without a line break: what `(.*)` captures. */
  function TakeLine(s: string): (r: string)
    ensures |r| <= |s| && r == s[..|r|] && '\n' !in r
    ensures |r| < |s| ==> s[|r|] == '\n'
  {
    if s == [] || s[0] == '\n' then [] else [s[0]] + TakeLine(s[1..])
  }

  const Marker := "COMMAND:"

  /** `re.findall(r'^COMMAND:\s*(.*)$', s, re.MULTILINE)` on a suffix of the
      reply; `lineStart` says whether the suffix begins a line. After the
      marker, `\s*` skips white space, line breaks included, and `(.*)` takes
      the rest of the line it reaches; the search resumes at that line break. */
  function Scan(s: string, lineStart: bool): (r: seq<string>)
    decreases |s|
    ensures forall k :: 0 <= k < |r| ==> '\n' !in r[k] && (r[k] == [] || !IsSpace(r[k][0]))
  {
    if s == [] then []
    else if lineStart && IsPrefix(Marker, s) then
      var body := TrimStart(s[|Marker|..]);
      var command := TakeLine(body);
      [command] + Scan(body[|command|..], false)
    else Scan(s[1..], s[0] == '\n')
  }

  function ExtractCommands(reply: string): (r: seq<string>)
    ensures forall k :: 0 <= k < |r| ==> '\n' !in r[k] && (r[k] == [] || !IsSpace(r[k][0]))
  {
    Scan(reply, true)
  }

  /** The reference reading: a reply is its lines, and each line that starts
      with the marker contributes the rest of it without leading white space. */
  function Join(lines: seq<string>): string
    decreases |lines|
  {
    if |lines| == 0 then []
    else if |lines| == 1 then lines[0]
    else lines[0] + "\n" + Join(lines[1..])
  }

  function LineCommand(line: string): seq<string> {
    if IsPrefix(Marker, line) then [TrimStart(line[|Marker|..])] else []
  }

  function LineCommands(lines: seq<string>): seq<string>
    decreases |lines|
  {
    if lines == [] then [] else LineCommand(lines[0]) + LineCommands(lines[1..])
  }

  /** A line the reference reading covers: a marker line must name something
      on that same line unless it is the last one. */
  predicate SingleLine(line: string) {
    '\n' !in line
  }

  predicate NamesOnItsLine(line: string) {
    IsPrefix(Marker, line) ==> !AllSpace(line[|Marker|..])
  }

  lemma {:induction false} ScanSkipsRestOfLine(x: string, rest: string)
    requires '\n' !in x
    ensures Scan(x + "\n" + rest, false) == Scan(rest, true)
  {
    var s := x + "\n" + rest;
    if x == [] {
      assert s[1..] == rest;
    } else {
      assert s[1..] == x[1..] + "\n" + rest;
      ScanSkipsRestOfLine(x[1..], rest);
    }
  }

  lemma {:induction false} ScanLastLine(x: string)
    requires '\n' !in x
    ensures Scan(x, false) == []
  {
    if x != [] {
      ScanLastLine(x[1..]);
    }
  }

  lemma NoMarkerAcrossBreak(line: string, rest: string)
    requires '\n' !in line && !IsPrefix(Marker, line)
    ensures !IsPrefix(Marker, line + "\n" + rest)
  {
    var s := line + "\n" + rest;
    if |line| >= |Marker| {
      assert s[..|Marker|] == line[..|Marker|];
    } else if |s| >= |Marker| {
      assert s[..|Marker|][|line|] == '\n';
      assert forall k :: 0 <= k < |Marker| ==> Marker[k] != '\n';
    }
  }

  lemma {:induction false} TakeLineUpTo(a: string, b: string)
    requires '\n' !in a && (b == [] || b[0] == '\n')
    ensures TakeLine(a + b) == a
  {
    if a == [] {
      assert a + b == b;
    } else {
      assert (a + b)[1..] == a[1..] + b;
      TakeLineUpTo(a[1..], b);
    }
  }

  /** A marker line followed by another line: its command is the rest of
      the line without leading white space, provided that is not empty. */
  lemma MarkerLine(x: string, tail: string)
    requires '\n' !in x && TrimStart(x) != [] && tail != [] && tail[0] == '\n'
    ensures Scan(Marker + x + tail, true) == [TrimStart(x)] + Scan(tail[1..], true)
  {
    var s := Marker + (x + tail);
    assert Marker + x + tail == s;
    var command := TrimStart(x);
    var body := command + tail;
    PrefixOfConcat(Marker, x + tail);
    assert TrimStart(s[|Marker|..]) == body by {
      TrimStartAppend(x, tail);
    }
    assert TakeLine(body) == command by {
      TrimStartKeeps(x, '\n');
      TakeLineUpTo(command, tail);
    }
    assert body[|command|..] == tail;
  }

  /** The last line of the reply, when it is a marker line. */
  lemma MarkerLastLine(x: string)
    requires '\n' !in x
    ensures Scan(Marker + x, true) == [TrimStart(x)]
  {
    var s := Marker + x;
    PrefixOfConcat(Marker, x);
    var body := TrimStart(x);
    TrimStartKeeps(x, '\n');
    TakeLineUpTo(body, []);
    assert body + [] == body;
    var command := TakeLine(body);
    assert command == body;
    assert body[|command|..] == [];
    assert Scan(s, true) == [command] + Scan([], false);
  }

  /** A line that is not a marker line contributes nothing. */
  lemma PlainLine(line: string, rest: string)
    requires '\n' !in line && !IsPrefix(Marker, line)
    ensures Scan(line + "\n" + rest, true) == Scan(rest, true)
    ensures Scan(line, true) == []
  {
    var s := line + "\n" + rest;
    NoMarkerAcrossBreak(line, rest);
    if line == [] {
      assert s[1..] == rest;
    } else {
      assert s[1..] == line[1..] + "\n" + rest;
      ScanSkipsRestOfLine(line[1..], rest);
      ScanLastLine(line[1..]);
    }
  }

  lemma MarkerRest(line: string)
    requires '\n' !in line && IsPrefix(Marker, line)
    ensures line == Marker + line[|Marker|..] && '\n' !in line[|Marker|..]
  {
    assert forall k :: 0 <= k < |line| - |Marker| ==> line[|Marker|..][k] == line[|Marker| + k];
  }

  /** A line followed by a line break contributes what the reference reading
      says. */
  lemma FirstLine(line: string, rest: string)
    requires SingleLine(line) && NamesOnItsLine(line)
    ensures Scan(line + "\n" + rest, true) == LineCommand(line) + Scan(rest, true)
  {
    if IsPrefix(Marker, line) {
      var x := line[|Marker|..];
      MarkerRest(line);
      TrimStartEmpty(x);
      assert line + "\n" + rest == Marker + x + ("\n" + rest);
      MarkerLine(x, "\n" + rest);
      assert ("\n" + rest)[1..] == rest;
    } else {
      PlainLine(line, rest);
    }
  }

  /** The last line contributes what the reference reading says, whatever
      it holds. */
  lemma OnlyLine(line: string)
    requires SingleLine(line)
    ensures Scan(line, true) == LineCommand(line)
  {
    if IsPrefix(Marker, line) {
      MarkerRest(line);
      MarkerLastLine(line[|Marker|..]);
    } else {
      PlainLine(line, []);
    }
  }

  /** The extraction agrees with the line-by-line reading whenever every
      marker line but the last names its command on its own line. */
  lemma {:induction false} ExtractByLines(lines: seq<string>)
    requires forall k :: 0 <= k < |lines| ==> SingleLine(lines[k])
    requires forall k :: 0 <= k < |lines| - 1 ==> NamesOnItsLine(lines[k])
    ensures ExtractCommands(Join(lines)) == LineCommands(lines)
    decreases |lines|
  {
    if |lines| == 1 {
      OnlyLine(lines[0]);
      assert LineCommands(lines) == LineCommand(lines[0]) + LineCommands([]);
    } else if |lines| > 1 {
      assert SingleLine(lines[0]) && NamesOnItsLine(lines[0]);
      FirstLine(lines[0], Join(lines[1..]));
      ExtractByLines(lines[1..]);
    }
  }

  /** As written, `\s*` runs across line breaks: a marker with nothing after
      it takes the command from the next non-blank line. */
  lemma MarkerSpansLines(ws: string, x: string)
    requires AllSpace(ws) && '\n' !in x && x != [] && !IsSpace(x[0])
    ensures ExtractCommands(Marker + ws + x) == [x]
  {
    var s := Marker + (ws + x);
    assert Marker + ws + x == s;
    PrefixOfConcat(Marker, ws + x);
    TrimStartOfSpaces(ws, x);
    var body := TrimStart(s[|Marker|..]);
    assert body == x;
    TakeLineUpTo(x, []);
    assert x + [] == x;
    var command := TakeLine(body);
    assert command == x;
    assert body[|command|..] == [];
    assert Scan(s, true) == [command] + Scan([], false);
  }

  // The reply is a parameter pinned by the requires rather than a literal in
  // the ensures, so that its characters are unfolded only where the proof needs them.
  lemma MarkerOnItsOwnLine(reply: string)
    requires reply == "COMMAND:\nls"
    ensures ExtractCommands(reply) == ["ls"]
  {
    assert reply == Marker + "\n" + "ls";
    MarkerSpansLines("\n", "ls");
  }

  /** The flows run for the first `|flows|` suggested commands, one after
      the other: `lists[k]` is the trusted list when the `k`-th flow starts
      and `lists[k + 1]` the one it leaves. Each flow ran to its end (the
      popups are modal), kept its command, was judged against the list it
      started with, and kept that list or promoted it with its own command. */
  ghost predicate Chain(engine: RegexEngine, commands: seq<string>, flows: seq<Flow>, lists: seq<seq<string>>) {
    && |lists| == |flows| + 1 && |flows| <= |commands|
    && Grows(commands, lists)
    && forall k :: 0 <= k < |flows| ==>
         && flows[k].stage == Done
         && flows[k].command == commands[k]
         && flows[k].verdict == Classify(engine, lists[k], commands[k])
         && lists[k + 1] == flows[k].trusted
         && (lists[k + 1] == lists[k] || lists[k + 1] == Promoted(lists[k], commands[k]))
  }

  lemma ChainExtend(engine: RegexEngine, commands: seq<string>, flows: seq<Flow>, lists: seq<seq<string>>, f: Flow)
    requires Chain(engine, commands, flows, lists) && |flows| < |commands|
    requires var n := |flows|;
             && f.stage == Done && f.command == commands[n]
             && f.verdict == Classify(engine, lists[n], commands[n])
             && (f.trusted == lists[n] || f.trusted == Promoted(lists[n], commands[n]))
    ensures Chain(engine, commands, flows + [f], lists + [f.trusted])
  {
    var flows', lists' := flows + [f], lists + [f.trusted];
    forall k | 0 <= k < |flows'|
      ensures && flows'[k].stage == Done
              && flows'[k].command == commands[k]
              && flows'[k].verdict == Classify(engine, lists'[k], commands[k])
              && lists'[k + 1] == flows'[k].trusted
              && (lists'[k + 1] == lists'[k] || lists'[k + 1] == Promoted(lists'[k], commands[k]))
    {
      if k < |flows| {
        assert flows'[k] == flows[k] && lists'[k] == lists[k] && lists'[k + 1] == lists[k + 1];
      }
    }
  }

  /** Each list keeps the previous one or promotes it with the command
      handled in between. */
  ghost predicate Grows(commands: seq<string>, lists: seq<seq<string>>) {
    && |lists| <= |commands| + 1
    && forall k :: 0 <= k < |lists| - 1 ==>
         lists[k + 1] == lists[k] || lists[k + 1] == Promoted(lists[k], commands[k])
  }

  /** The flow for `command` ends once every popup it shows is answered. */
  predicate Completes(engine: RegexEngine, trusted: seq<string>, command: string, events: seq<Event>) {
    var r := Run(Start(engine, trusted, command), events);
    r.Some? && r.value.stage == Done
  }

  /** One `execute_safe_command_gui(cmd)` call with the operator's answers;
      an accepted trust offer updates and saves the process-wide list. */
  method HandleCommand(engine: RegexEngine, store: TrustedCommands, command: string, events: seq<Event>)
      returns (outcome: Option<Flow>)
    modifies store
    ensures outcome.Some? <==> Completes(engine, old(store.entries), command, events)
    ensures outcome.Some? ==>
              var f := outcome.value;
              && f.stage == Done && f.command == command
              && f.verdict == Classify(engine, old(store.entries), command)
              && store.entries == f.trusted
              && (f.trusted == old(store.entries) || f.trusted == Promoted(old(store.entries), command))
    ensures outcome.Some? ==> Run(Start(engine, old(store.entries), command), events) == outcome
    ensures outcome.None? ==> store.entries == old(store.entries)
    ensures store.saved == old(store.saved) + (if store.entries != old(store.entries) then [store.entries] else [])
  {
    RunOutcome(engine, store.entries, command, events);
    var r := Run(Start(engine, store.entries, command), events);
    if r.None? || r.value.stage != Done {
      return None;
    }
    var f := r.value;
    if f.trusted != store.entries {
      var message := store.Promote(command);
    }
    return Some(f);
  }

  /** The `k`-th flow is the run of the `k`-th command, from the list it
      started with, on the `k`-th sequence of answers. */
  ghost predicate Answered(engine: RegexEngine, commands: seq<string>, answers: seq<seq<Event>>,
                           flows: seq<Flow>, lists: seq<seq<string>>) {
    && |flows| <= |answers| && |flows| <= |commands| && |lists| == |flows| + 1
    && forall k :: 0 <= k < |flows| ==> RanAs(engine, lists[k], commands[k], answers[k], flows[k])
  }

  /** `f` is the flow that `events` lead to from the popup for `command`. */
  ghost predicate RanAs(engine: RegexEngine, trusted: seq<string>, command: string, events: seq<Event>, f: Flow) {
    Run(Start(engine, trusted, command), events) == Some(f)
  }

  /** The lists handed to `save_user_trusted_commands` along a chain: each
      list that differs from the one before it, in order. */
  ghost function SavedAlong(lists: seq<seq<string>>): seq<seq<string>>
    decreases |lists|
  {
    if |lists| < 2 then []
    else
      var n := |lists|;
      SavedAlong(lists[..n - 1]) + (if lists[n - 1] != lists[n - 2] then [lists[n - 1]] else [])
  }

  /** The `for cmd in suggested_commands` loop of `on_send`, each command
      taken through `execute_safe_command_gui` with the operator's answers
      `answers[k]`. The loop stops early only when the answers run out or do
      not fit the popups shown. */
  method HandleReply(engine: RegexEngine, store: TrustedCommands, reply: string, answers: seq<seq<Event>>)
      returns (flows: seq<Flow>, ghost lists: seq<seq<string>>)
    modifies store
    ensures var commands := ExtractCommands(reply);
            && Chain(engine, commands, flows, lists)
            && lists[0] == old(store.entries) && lists[|flows|] == store.entries
            && Answered(engine, commands, answers, flows, lists)
            && (|flows| < |commands| ==>
                  |answers| <= |flows| || !Completes(engine, store.entries, commands[|flows|], answers[|flows|]))
    ensures store.saved == old(store.saved) + SavedAlong(lists)
  {
    var commands := ExtractCommands(reply);
    flows := [];
    lists := [store.entries];
    var k := 0;
    while k < |commands| && k < |answers|
      invariant 0 <= k <= |commands| && |flows| == k
      invariant Chain(engine, commands, flows, lists)
      invariant Answered(engine, commands, answers, flows, lists)
      invariant lists[0] == old(store.entries) && lists[k] == store.entries
      invariant store.saved == old(store.saved) + SavedAlong(lists)
    {
      ghost var savedBefore := store.saved;
      var outcome := HandleCommand(engine, store, commands[k], answers[k]);
      SavedStep(old(store.saved), savedBefore, lists, store.entries, store.saved);
      if outcome.None? {
        return;
      }
      ChainExtend(engine, commands, flows, lists, outcome.value);
      AnsweredExtend(engine, commands, answers, flows, lists, outcome.value);
      flows := flows + [outcome.value];
      lists := lists + [store.entries];
      k := k + 1;
    }
  }

  lemma AnsweredExtend(engine: RegexEngine, commands: seq<string>, answers: seq<seq<Event>>,
                       flows: seq<Flow>, lists: seq<seq<string>>, f: Flow)
    requires Answered(engine, commands, answers, flows, lists)
    requires |flows| < |answers| && |flows| < |commands|
    requires RanAs(engine, lists[|flows|], commands[|flows|], answers[|flows|], f)
    ensures Answered(engine, commands, answers, flows + [f], lists + [f.trusted])
  {
    var flows', lists' := flows + [f], lists + [f.trusted];
    forall k | 0 <= k < |flows'|
      ensures RanAs(engine, lists'[k], commands[k], answers[k], flows'[k])
    {
      if k < |flows| {
        assert flows'[k] == flows[k] && lists'[k] == lists[k];
      }
    }
  }

  lemma SavedAlongSnoc(lists: seq<seq<string>>, next: seq<string>)
    requires lists != []
    ensures SavedAlong(lists + [next])
            == SavedAlong(lists) + (if next != lists[|lists| - 1] then [next] else [])
  {
    var l := lists + [next];
    assert l[..|l| - 1] == lists;
  }

  /** One more command handled: what it saved follows what the earlier ones
      saved, and a command that changed nothing saved nothing. */
  lemma SavedStep(s0: seq<seq<string>>, saved: seq<seq<string>>, lists: seq<seq<string>>,
                  next: seq<string>, saved': seq<seq<string>>)
    requires lists != [] && saved == s0 + SavedAlong(lists)
    requires saved' == saved + (if next != lists[|lists| - 1] then [next] else [])
    ensures saved' == s0 + SavedAlong(lists + [next])
    ensures next == lists[|lists| - 1] ==> saved' == s0 + SavedAlong(lists)
  {
    SavedAlongSnoc(lists, next);
    var a := SavedAlong(lists);
    if next != lists[|lists| - 1] {
      assert saved' == (s0 + a) + [next];
      assert (s0 + a) + [next] == s0 + (a + [next]);
    } else {
      assert saved' == saved + [];
      assert saved + [] == saved;
      assert a + [] == a;
    }
  }


  /** Every command the reply loop handled met its confirmation popup first,
      judged against the list the earlier commands left, and was started at
      most once and only after a Yes. */
  lemma HandledCommandPassedTheGate(engine: RegexEngine, commands: seq<string>, answers: seq<seq<Event>>,
                                    flows: seq<Flow>, lists: seq<seq<string>>, k: nat)
    requires Answered(engine, commands, answers, flows, lists) && k < |flows|
    ensures |flows[k].popups| >= 1
    ensures flows[k].popups[0] == ConfirmPopup(Classify(engine, lists[k], commands[k]), commands[k])
    ensures |flows[k].launches| <= 1
    ensures flows[k].launches != [] ==> answers[k] != [] && answers[k][0] == Answer(true)
  {
    assert RanAs(engine, lists[k], commands[k], answers[k], flows[k]);
    EveryRunPassesTheGate(engine, lists[k], commands[k], answers[k]);
    NoLaunchWithoutConsent(engine, lists[k], commands[k], answers[k]);
  }

  lemma {:induction false} ListsGrow(commands: seq<string>, lists: seq<seq<string>>, i: nat, j: nat)
    requires Grows(commands, lists) && i <= j < |lists|
    ensures lists[i] <= lists[j]
    decreases j - i
  {
    if i < j {
      ListsGrow(commands, lists, i, j - 1);
      assert lists[j] == lists[j - 1] || lists[j] == Promoted(lists[j - 1], commands[j - 1]);
    }
  }

  /** Answering one reply adds to the trusted list only commands of that
      reply, and removes nothing. */
  lemma {:induction false} ChainAddsOnlyItsCommands(engine: RegexEngine, commands: seq<string>, flows: seq<Flow>, lists: seq<seq<string>>, n: nat)
    requires Chain(engine, commands, flows, lists) && n < |lists|
    ensures lists[0] <= lists[n]
    ensures forall c :: c in lists[n] && c !in lists[0] ==> c in commands[..n]
  {
    assert Grows(commands, lists);
    ListsGrow(commands, lists, 0, n);
    GrowsAddsOnly(commands, lists, n);
  }

  lemma {:induction false} GrowsAddsOnly(commands: seq<string>, lists: seq<seq<string>>, n: nat)
    requires Grows(commands, lists) && n < |lists|
    ensures forall c :: c in lists[n] && c !in lists[0] ==> c in commands[..n]
  {
    if n > 0 {
      GrowsAddsOnly(commands, lists, n - 1);
      var prev := lists[n - 1];
      assert lists[n] == prev || lists[n] == Promoted(prev, commands[n - 1]);
      assert commands[..n] == commands[..n - 1] + [commands[n - 1]];
      forall c | c in lists[n] && c !in lists[0]
        ensures c in commands[..n]
      {
        if c in prev {
          assert c in commands[..n - 1];
        } else {
          assert c == commands[n - 1];
        }
      }
    }
  }

  /** A literal command trusted while answering one reply is reported as
      already trusted when it, or any command beginning with it, is suggested
      again later in the same reply. */
  lemma TrustCarriesThroughReply(engine: RegexEngine, commands: seq<string>, flows: seq<Flow>, lists: seq<seq<string>>, i: nat, j: nat, rest: string)
    requires Chain(engine, commands, flows, lists)
    requires i < j < |flows| && IsLiteral(commands[i]) && commands[j] == commands[i] + rest
    requires commands[i] in flows[i].trusted
    ensures flows[j].verdict == Trusted
  {
    assert Grows(commands, lists);
    ListsGrow(commands, lists, i + 1, j);
    LiteralEntryAcceptsExtensions(engine, lists[j], commands[i], rest);
  }
}
