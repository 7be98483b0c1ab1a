/** The command rewriting of `run_proc`: `sudo -S` injection, the password
    pipe, and the detection of graphical programs.

    `shlex.quote` is not part of this model; it is the parameter `quote`. */
module Transform {
  import opened Text

  /** `shlex.quote` */
  type Quoter = string -> string

  /** `cmd.replace("sudo", "sudo -S", 1)` when `cmd` contains "sudo" and no "-S"
      anywhere; otherwise `cmd` itself. */
  function InjectSudoS(cmd: string): (r: string)
    ensures !Contains(cmd, "sudo") || Contains(cmd, "-S") ==> r == cmd
    ensures Contains(cmd, "sudo") && !Contains(cmd, "-S") ==>
              exists i :: && OccursAt(cmd, "sudo", i)
                          && (forall j :: 0 <= j < i ==> !OccursAt(cmd, "sudo", j))
                          && r == cmd[..i + 4] + " -S" + cmd[i + 4..]
  {
    if Contains(cmd, "sudo") && !Contains(cmd, "-S") then
      var r := ReplaceFirst(cmd, "sudo", "sudo -S");
      assert forall i :: 0 <= i && i + 4 <= |cmd| && cmd[i..i + 4] == "sudo" ==>
               cmd[..i] + "sudo -S" + cmd[i + 4..] == cmd[..i + 4] + " -S" + cmd[i + 4..];
      r
    else cmd
  }

  /** `password and password.strip()`: a password was entered and is not blank. */
  predicate PasswordUsable(password: Option<string>) {
    password.Some? && Strip(password.value) != []
  }

  /** Prefix `echo <quoted password> | ` when the command contains "sudo" and
      the password is usable. */
  function PipePassword(quote: Quoter, cmd: string, password: Option<string>): (r: string)
    ensures |cmd| <= |r| && r[|r| - |cmd|..] == cmd
    ensures r != cmd <==> Contains(cmd, "sudo") && PasswordUsable(password)
  {
    if Contains(cmd, "sudo") && PasswordUsable(password) then
      "echo " + quote(password.value) + " | " + cmd
    else cmd
  }

  /** The shell command that `run_proc` hands to `subprocess.Popen`. */
  function ShellCommand(quote: Quoter, command: string, password: Option<string>): (r: string)
    ensures var injected := InjectSudoS(command); |injected| <= |r| && r[|r| - |injected|..] == injected
    ensures !Contains(command, "sudo") ==> r == command
  {
    PipePassword(quote, InjectSudoS(command), password)
  }

  lemma ContainsInSuffix(x: string, y: string, t: string)
    requires Contains(y, t)
    ensures Contains(x + y, t)
  {
    var i :| 0 <= i <= |y| - |t| && OccursAt(y, t, i);
    assert (x + y)[|x| + i..|x| + i + |t|] == y[i..i + |t|];
    assert OccursAt(x + y, t, |x| + i);
  }

  /** Injection keeps "sudo" in the command and leaves "-S" in every command
      that contains "sudo". */
  lemma InjectSudoSResult(cmd: string)
    ensures Contains(InjectSudoS(cmd), "sudo") <==> Contains(cmd, "sudo")
    ensures Contains(cmd, "sudo") ==> Contains(InjectSudoS(cmd), "-S")
  {
    var r := InjectSudoS(cmd);
    if Contains(cmd, "sudo") && !Contains(cmd, "-S") {
      var i :| && OccursAt(cmd, "sudo", i)
               && (forall j :: 0 <= j < i ==> !OccursAt(cmd, "sudo", j))
               && r == cmd[..i + 4] + " -S" + cmd[i + 4..];
      assert r[i..i + 4] == cmd[i..i + 4];
      assert OccursAt(r, "sudo", i);
      assert r[i + 5..i + 7] == "-S";
      assert OccursAt(r, "-S", i + 5);
    }
  }

  /** The `sudo -S` step is idempotent. */
  lemma InjectSudoSIdempotent(cmd: string)
    ensures InjectSudoS(InjectSudoS(cmd)) == InjectSudoS(cmd)
  {
    InjectSudoSResult(cmd);
  }

  /** The whole rewrite: an optional password pipe in front of the command with
      " -S" inserted after its first "sudo". Nothing else is added; in
      particular no `-y` flag is ever given to apt. */
  lemma ShellCommandShape(quote: Quoter, command: string, password: Option<string>)
    ensures var piped := Contains(command, "sudo") && PasswordUsable(password);
            ShellCommand(quote, command, password)
              == (if piped then "echo " + quote(password.value) + " | " else "") + InjectSudoS(command)
    ensures !Contains(command, "sudo") ==> ShellCommand(quote, command, password) == command
  {
    InjectSudoSResult(command);
  }

  /** Re-applying the rewrite pipes the password a second time whenever the
      first application piped it, and changes nothing otherwise: the rewrite is
      idempotent exactly when no password is piped. */
  lemma ShellCommandReapplied(quote: Quoter, command: string, password: Option<string>)
    ensures var once := ShellCommand(quote, command, password);
            var twice := ShellCommand(quote, once, password);
            var piped := Contains(command, "sudo") && PasswordUsable(password);
            && (piped ==> twice == "echo " + quote(password.value) + " | " + once && twice != once)
            && (!piped ==> twice == once)
  {
    var injected := InjectSudoS(command);
    var once := ShellCommand(quote, command, password);
    InjectSudoSResult(command);
    InjectSudoSIdempotent(command);
    if Contains(command, "sudo") && PasswordUsable(password) {
      var prefix := "echo " + quote(password.value) + " | ";
      assert once == prefix + injected;
      ContainsInSuffix(prefix, injected, "sudo");
      ContainsInSuffix(prefix, injected, "-S");
      assert InjectSudoS(once) == once;
      assert |ShellCommand(quote, once, password)| > |once|;
    } else {
      assert once == injected;
      InjectSudoSResult(injected);
    }
  }

  lemma AbsentFirstCharacter(s: string, t: string)
    requires t != [] && t[0] !in s
    ensures !Contains(s, t)
  {
    forall i | 0 <= i <= |s| - |t|
      ensures !OccursAt(s, t, i)
    {
    }
  }

  lemma MismatchAt(s: string, t: string, i: nat)
    requires i < |s| && t != [] && s[i] != t[0]
    ensures !OccursAt(s, t, i)
  {
    if i + |t| <= |s| {
      assert s[i..i + |t|][0] == s[i];
    }
  }

  // The example lemmas below take their literal through a `requires c == ...`
  // rather than writing it in the ensures: the literal's characters then reach
  // the solver only where a proof step unfolds them, which keeps each proof cheap.

  lemma NoDashInSudoku(c: string)
    requires c == "cat sudoku.txt"
    ensures !Contains(c, "-S")
  {
    assert '-' !in c;
    AbsentFirstCharacter(c, "-S");
  }

  lemma FirstSudoInSudoku(c: string)
    requires c == "cat sudoku.txt"
    ensures FirstIndex(c, "sudo") == Some(4)
  {
    assert OccursAt(c, "sudo", 4);
    MismatchAt(c, "sudo", 0);
    MismatchAt(c, "sudo", 1);
    MismatchAt(c, "sudo", 2);
    MismatchAt(c, "sudo", 3);
    assert FindFrom(c, "sudo", 0) == Some(4);
  }

  lemma InjectInSudoku(c: string)
    requires c == "cat sudoku.txt"
    ensures Contains(c, "sudo")
    ensures InjectSudoS(c) == c[..4] + "sudo -S" + c[8..]
  {
    FirstSudoInSudoku(c);
    NoDashInSudoku(c);
    assert ReplaceFirst(c, "sudo", "sudo -S") == c[..4] + "sudo -S" + c[8..];
  }

  lemma SudokuPieces(c: string)
    requires c == "cat sudoku.txt"
    ensures c[..4] + "sudo -S" + c[8..] == "cat sudo -Sku.txt"
  {
    assert c[..4] == "cat ";
    assert c[8..] == "ku.txt";
  }

  /** "sudo" is found inside any word: `cat sudoku.txt` is rewritten to
      `cat sudo -Sku.txt` and then offered a sudo password. */
  lemma SudoInsideWordIsRewritten(c: string)
    requires c == "cat sudoku.txt"
    ensures Contains(c, "sudo")
    ensures InjectSudoS(c) == "cat sudo -Sku.txt"
  {
    InjectInSudoku(c);
    SudokuPieces(c);
  }

  /** An "-S" anywhere suppresses the injection, even one that belongs to
      another program: `sudo ls -S /var` keeps a `sudo` that reads no password
      from its standard input. */
  lemma ForeignDashSBlocksInjection()
    ensures InjectSudoS("sudo ls -S /var") == "sudo ls -S /var"
  {
    assert OccursAt("sudo ls -S /var", "-S", 8);
  }

  /** `gui_apps` */
  const GuiApps: seq<string> :=
    ["google-chrome", "firefox", "chromium", "code", "gedit", "vlc", "nautilus", "dolphin"]

  /** `cmd.strip().startswith(app) or f" {app}" in cmd` */
  predicate NamesGuiApp(cmd: string, app: string) {
    IsPrefix(app, Strip(cmd)) || Contains(cmd, " " + app)
  }

  predicate NamesAnyOf(cmd: string, apps: seq<string>) {
    exists k | 0 <= k < |apps| :: NamesGuiApp(cmd, apps[k])
  }

  predicate LaunchesGui(cmd: string) {
    NamesAnyOf(cmd, GuiApps)
  }

  /** The `for app in gui_apps` loop of `run_proc`, which stops at the first
      name that matches. */
  method DetectGui(cmd: string, apps: seq<string>) returns (isGui: bool)
    ensures isGui <==> NamesAnyOf(cmd, apps)
  {
    isGui := false;
    var k := 0;
    while k < |apps|
      invariant 0 <= k <= |apps|
      invariant !isGui
      invariant forall m :: 0 <= m < k ==> !NamesGuiApp(cmd, apps[m])
    {
      if NamesGuiApp(cmd, apps[k]) {
        isGui := true;
        break;
      }
      k := k + 1;
    }
  }

  lemma SpacedGuiName(cmd: string, k: nat, i: nat)
    requires k < |GuiApps| && OccursAt(cmd, " " + GuiApps[k], i)
    ensures LaunchesGui(cmd)
  {
    assert Contains(cmd, " " + GuiApps[k]);
    assert NamesGuiApp(cmd, GuiApps[k]);
    assert NamesAnyOf(cmd, GuiApps);
  }

  /** A GUI name anywhere after a space counts, even as an argument:
      `ls code` is launched detached and its listing is never shown.
      (The literals are parameters pinned by the requires, as above, to keep
      the proof cheap.) */
  lemma ArgumentNamedLikeGuiApp(listing: string, launch: string)
    requires listing == "ls code" && launch == "echo pw | sudo -S firefox"
    ensures LaunchesGui(listing) && LaunchesGui(launch)
  {
    assert " " + GuiApps[3] == " code";
    SpacedGuiName(listing, 3, 2);
    assert " " + GuiApps[1] == " firefox";
    SpacedGuiName(launch, 1, 17);
  }
}
