/** The operator's trusted commands: the module-level list
    `user_trusted_commands`, `load_user_trusted_commands` and the promotion
    step of `after_trust`.

    Reading and writing the JSON file are outside the model: a load is given
    the outcome of the read, and a save is recorded as the list it was handed. */
module TrustStore {
  import opened Matching

  /** What reading `user_trusted_commands.json` produced. */
  datatype LoadOutcome =
    | FileMissing               // os.path.exists is false
    | Malformed                 // json.JSONDecodeError
    | Unreadable                // any other exception while opening or reading
    | Parsed(entries: seq<string>)

  /** The list that a load installs: the parsed list, or an empty list on every
      other outcome. A failed load never keeps what was in memory before. */
  function LoadedEntries(outcome: LoadOutcome): (r: seq<string>)
    ensures !outcome.Parsed? ==> r == []
    ensures outcome.Parsed? ==> r == outcome.entries
  {
    match outcome
    case Parsed(entries) => entries
    case _ => []
  }

  /** The trusted list after the operator accepts to trust `command`. */
  function Promoted(trusted: seq<string>, command: string): (r: seq<string>)
    ensures command in r
    ensures trusted <= r
    ensures command in trusted ==> r == trusted
    ensures command !in trusted ==> r == trusted + [command]
  {
    if command in trusted then trusted else trusted + [command]
  }

  /** The message shown after an accepted promotion. */
  function PromotionMessage(trusted: seq<string>, command: string): (r: string)
    ensures r == "Command already in trusted list." <==> Promoted(trusted, command) == trusted
    ensures r != "Command already in trusted list." ==> r == "Command added to trusted list."
  {
    if command in trusted then "Command already in trusted list." else "Command added to trusted list."
  }

  predicate NoDuplicates(s: seq<string>) {
    forall i, j :: 0 <= i < j < |s| ==> s[i] != s[j]
  }

  /** Promoting the same command twice leaves one occurrence of it. */
  lemma PromoteIdempotent(trusted: seq<string>, command: string)
    ensures Promoted(Promoted(trusted, command), command) == Promoted(trusted, command)
    ensures PromotionMessage(Promoted(trusted, command), command) == "Command already in trusted list."
  {
  }

  lemma {:induction false} PromoteKeepsNoDuplicates(trusted: seq<string>, command: string)
    requires NoDuplicates(trusted)
    ensures NoDuplicates(Promoted(trusted, command))
  {
    var r := Promoted(trusted, command);
    if command !in trusted {
      forall i, j | 0 <= i < j < |r|
        ensures r[i] != r[j]
      {
        if j == |trusted| {
          assert r[i] == trusted[i];
        }
      }
    }
  }

  /** The number of occurrences of `command` in a promoted list is exactly one
      when there were none before, and unchanged otherwise. */
  lemma {:induction false} PromoteCountsOnce(trusted: seq<string>, command: string)
    ensures multiset(Promoted(trusted, command))[command]
            == if command in trusted then multiset(trusted)[command] else 1
  {
    if command !in trusted {
      assert multiset(trusted)[command] == 0;
      assert multiset(trusted + [command]) == multiset(trusted) + multiset{command};
    }
  }

  /** Promotion never withdraws acceptance: every command some entry matched
      before is still matched, and the promoted command's own entry is added. */
  lemma PromoteOnlyWidens(engine: RegexEngine, trusted: seq<string>, command: string, other: string)
    ensures AnyMatches(engine, Promoted(trusted, command), other)
            <==> AnyMatches(engine, trusted, other) || Matches(engine, command, other)
  {
    if command in trusted {
      var i :| 0 <= i < |trusted| && trusted[i] == command;
      if Matches(engine, command, other) {
        assert Matches(engine, trusted[i], other);
      }
    } else {
      AnyMatchesAppend(engine, trusted, command, other);
    }
  }

  /** A promoted command free of metacharacters makes every command that
      begins with it trusted. */
  lemma PromotedLiteralAcceptsExtensions(engine: RegexEngine, trusted: seq<string>, command: string, rest: string)
    requires IsLiteral(command)
    ensures AnyMatches(engine, Promoted(trusted, command), command + rest)
  {
    LiteralEntryAcceptsExtensions(engine, Promoted(trusted, command), command, rest);
  }

  /** The process-wide list and its file. */
  class TrustedCommands {
    /** `user_trusted_commands` */
    var entries: seq<string>
    /** The lists handed to `save_user_trusted_commands`, oldest first. */
    var saved: seq<seq<string>>

    /** The module is imported with an empty list and nothing saved. */
    constructor ()
      ensures entries == [] && saved == []
    {
      entries := [];
      saved := [];
    }

    /** `load_user_trusted_commands` */
    method Load(outcome: LoadOutcome)
      modifies this
      ensures entries == LoadedEntries(outcome)
      ensures saved == old(saved)
    {
      match outcome {
        case Parsed(list) => entries := list;
        case FileMissing => entries := [];
        case Malformed => entries := [];
        case Unreadable => entries := [];
      }
    }

    /** The accepting branch of `after_trust`: append if absent and save, or
        report that the command is already there. */
    method Promote(command: string) returns (message: string)
      modifies this
      ensures entries == Promoted(old(entries), command)
      ensures message == PromotionMessage(old(entries), command)
      ensures command !in old(entries) ==> saved == old(saved) + [entries]
      ensures command in old(entries) ==> saved == old(saved)
    {
      if command !in entries {
        entries := entries + [command];
        saved := saved + [entries];
        message := "Command added to trusted list.";
      } else {
        message := "Command already in trusted list.";
      }
    }
  }
}
