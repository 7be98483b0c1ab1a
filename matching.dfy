/** Whitelist and trust matching: `is_command_safe` and `SAFE_COMMANDS_WHITELIST`.

    Every entry of a pattern list is handed to Python's `re.match`, which is
    anchored at the start of the command only: a pattern without `$` accepts
    every command that begins with something it matches. The regular-expression
    engine itself is not part of this model; it is the parameter `engine`.
    An entry without metacharacters is a literal, and for it `re.match` is
    exactly "the entry is a prefix of the command": that case is defined here.
    Trust promotion stores commands verbatim and then matches them as
    patterns, so a promoted command without metacharacters is such a literal;
    one that holds a metacharacter (`cat $HOME/.bashrc`) goes to the engine
    like a whitelist entry. The engine is total: a pattern that does not
    compile, for which `re.match` raises `re.error`, is not modelled. */
module Matching {
  import opened Text

  /** `re.match(pattern, command) is not None`, for a pattern that uses
      regular-expression syntax. */
  type RegexEngine = (string, string) -> bool

  /** The characters that give a Python pattern a meaning other than itself
      (`{` and `}` are included although a stray brace is read literally). */
  const Metacharacters: set<char> :=
    {'.', '^', '$', '*', '+', '?', '{', '}', '[', ']', '\\', '|', '(', ')'}

  predicate IsLiteral(p: string) {
    forall k :: 0 <= k < |p| ==> p[k] !in Metacharacters
  }

  /** `re.match(pattern, command)` succeeds. */
  predicate Matches(engine: RegexEngine, pattern: string, command: string) {
    if IsLiteral(pattern) then IsPrefix(pattern, command) else engine(pattern, command)
  }

  /** Some entry of `patterns` start-matches `command`. */
  predicate AnyMatches(engine: RegexEngine, patterns: seq<string>, command: string) {
    exists i | 0 <= i < |patterns| :: Matches(engine, patterns[i], command)
  }

  /** `is_command_safe(command, whitelist)`: walks the list and returns at the
      first entry that matches. */
  method IsCommandSafe(engine: RegexEngine, command: string, patterns: seq<string>) returns (safe: bool)
    ensures safe <==> AnyMatches(engine, patterns, command)
    ensures patterns == [] ==> !safe
  {
    var i := 0;
    while i < |patterns|
      invariant 0 <= i <= |patterns|
      invariant forall j :: 0 <= j < i ==> !Matches(engine, patterns[j], command)
    {
      if Matches(engine, patterns[i], command) {
        return true;
      }
      i := i + 1;
    }
    return false;
  }

  /** `SAFE_COMMANDS_WHITELIST`, entry for entry, in the source's order. */
  const Whitelist: seq<string> := [
    @"^ls$", @"^ls\s.*",
    @"^cd\s[a-zA-Z0-9_/.\-]+$", @"^pwd$",
    @"^cat\s+/[a-zA-Z0-9_/\.\-]+$",
    @"^df$", @"^df\s-h$",
    @"^free$", @"^free\s-h$",
    @"^ps$", @"^ps\saux.*",
    @"^ip\sa$", @"^ifconfig$",
    @"^uptime$",
    @"^echo\s.*",
    @"^whoami$",
    @"^hostname$",
    @"^sudo\s+apt\s+update$",
    @"^sudo\s+apt\s+upgrade$",
    @"^sudo\s+apt\s+install\s+[\w\s\-]+$",
    @"^sudo\s+apt\s+remove\s+[\w\s\-]+$",
    @"^sudo\s+apt\s+purge\s+[\w\s\-]+$",
    @"^sudo\s+apt\s+autoremove$",
    @"^sudo\s+apt\s+clean$",
    @"^sudo\s+apt\s+update\s+&&\s+sudo\s+apt\s+upgrade$",
    @"^sudo\s+systemctl\s+(start|stop|restart|status|enable|disable|daemon-reload)\s+[a-zA-Z0-9_\-\.]+$",
    @"^sudo\s+service\s+[a-zA-Z0-9_\-]+\s+(start|stop|restart|status)$",
    @"^sudo\s+reboot$",
    @"^sudo\s+shutdown\s+(-r\s+)?now$",
    @"^sudo\s+dpkg\s+-i\s+[a-zA-Z0-9_/.\-]+\.deb$",
    @"^sudo\s+freshclam$",
    @"^sudo\s+clamscan\s+.*$"
  ]

  /** A literal entry accepts every command it begins: a trusted
      `sudo apt install nmap` also accepts `sudo apt install nmap; rm -rf /`. */
  lemma LiteralEntryAcceptsExtensions(engine: RegexEngine, patterns: seq<string>, p: string, rest: string)
    requires p in patterns && IsLiteral(p)
    ensures AnyMatches(engine, patterns, p + rest)
  {
    var i :| 0 <= i < |patterns| && patterns[i] == p;
    assert (p + rest)[..|p|] == p;
    assert Matches(engine, patterns[i], p + rest);
  }

  /** For a literal entry, acceptance is exactly "the entry is a prefix". */
  lemma LiteralEntryMatchesPrefixesOnly(engine: RegexEngine, p: string, command: string)
    requires IsLiteral(p)
    ensures AnyMatches(engine, [p], command) <==> IsPrefix(p, command)
  {
    if IsPrefix(p, command) {
      assert Matches(engine, [p][0], command);
    }
  }

  lemma ChainedCommandAfterTrustedInstall(engine: RegexEngine)
    ensures AnyMatches(engine, ["sudo apt install nmap"], "sudo apt install nmap; rm -rf /")
  {
    var p := "sudo apt install nmap";
    assert IsLiteral(p);
    assert "sudo apt install nmap; rm -rf /" == p + "; rm -rf /";
    LiteralEntryAcceptsExtensions(engine, [p], p, "; rm -rf /");
  }

  /** Appending an entry accepts what the list accepted before plus what the
      new entry matches, and nothing else. */
  lemma AnyMatchesAppend(engine: RegexEngine, patterns: seq<string>, p: string, command: string)
    ensures AnyMatches(engine, patterns + [p], command)
            <==> AnyMatches(engine, patterns, command) || Matches(engine, p, command)
  {
    var ps := patterns + [p];
    if AnyMatches(engine, patterns, command) {
      var i :| 0 <= i < |patterns| && Matches(engine, patterns[i], command);
      assert ps[i] == patterns[i];
    }
    if Matches(engine, p, command) {
      assert ps[|patterns|] == p;
    }
    if AnyMatches(engine, ps, command) {
      var i :| 0 <= i < |ps| && Matches(engine, ps[i], command);
      if i < |patterns| {
        assert ps[i] == patterns[i];
      }
    }
  }

  /** The verdict depends on which entries the list holds, not on their order
      or repetitions. */
  lemma AnyMatchesDependsOnEntriesOnly(engine: RegexEngine, ps: seq<string>, qs: seq<string>, command: string)
    requires forall p :: p in ps <==> p in qs
    ensures AnyMatches(engine, ps, command) == AnyMatches(engine, qs, command)
  {
    if AnyMatches(engine, ps, command) {
      var i :| 0 <= i < |ps| && Matches(engine, ps[i], command);
      assert ps[i] in qs;
      var j :| 0 <= j < |qs| && qs[j] == ps[i];
    }
    if AnyMatches(engine, qs, command) {
      var j :| 0 <= j < |qs| && Matches(engine, qs[j], command);
      assert qs[j] in ps;
      var i :| 0 <= i < |ps| && ps[i] == qs[j];
    }
  }
}
