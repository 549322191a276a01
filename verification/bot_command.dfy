/**
 * The bot's own copy of the command parser (still_shaken/src/bot/command.rs):
 * the grammar of parse.rs, errors reported as their messages, and the
 * privilege check `is_level_met`.
 */
module BotCommands {
  import opened Wrappers
  import opened Text
  import opened CommandTypes
  import opened CommandError
  import C = Commands

  /** What `build` returns: the command, or the message of the first error. */
  function Outcome(c: C.Command): Result<C.Command, string> {
    match C.Built(c, C.BothBrackets)
    case Ok(b) => Ok(b)
    case Err(e) => Err(Message(e))
  }

  /** `Command::build`, reporting failures as `anyhow` messages. */
  method Build(c: C.Command) returns (r: Result<C.Command, string>)
    ensures r == Outcome(c)
  {
    var p := C.Parse(c, C.BothBrackets);
    match p
    case Ok(b) => r := Ok(b);
    case Err(e) => r := Err(Message(e));
  }

  /** The message names the error it came from: no information is lost. */
  lemma OutcomeMessages(c: C.Command)
    ensures Outcome(c).Ok? <==> C.Built(c, C.BothBrackets).Ok?
    ensures Outcome(c).Err? ==> forall e :: Outcome(c).error == Message(e) <==> C.Built(c, C.BothBrackets) == Err(e)
  {
    if Outcome(c).Err? {
      forall e | Outcome(c).error == Message(e)
        ensures C.Built(c, C.BothBrackets) == Err(e)
      {
        MessageInjective(C.Built(c, C.BothBrackets).error, e);
      }
    }
  }

  /** `elevated` changes neither what is built nor what is extracted. */
  lemma ElevatedKeepsGrammar(c: C.Command, input: string)
    ensures Outcome(C.Elevated(c)).Ok? <==> Outcome(c).Ok?
    ensures Outcome(c).Ok? ==> Outcome(C.Elevated(c)).value == C.Elevated(Outcome(c).value)
    ensures Outcome(c).Err? ==> Outcome(C.Elevated(c)) == Outcome(c)
    ensures C.Extraction(C.Elevated(c), input) == C.Extraction(c, input)
  {
  }

  /** The fold over the badge list: whether any badge grants the privilege. */
  function AnyBadge(badges: seq<string>, privileged: string -> bool): bool {
    if badges == [] then false else privileged(badges[0]) || AnyBadge(badges[1..], privileged)
  }

  lemma {:induction false} AnyBadgeExists(badges: seq<string>, privileged: string -> bool)
    ensures AnyBadge(badges, privileged) <==> exists i :: 0 <= i < |badges| && privileged(badges[i])
    decreases |badges|
  {
    if badges != [] {
      AnyBadgeExists(badges[1..], privileged);
      if exists i :: 0 <= i < |badges| && privileged(badges[i]) {
        var i :| 0 <= i < |badges| && privileged(badges[i]);
        if i > 0 {
          assert badges[1..][i - 1] == badges[i];
        }
      }
      forall i | 0 <= i < |badges| - 1
        ensures badges[1..][i] == badges[i + 1]
      {
      }
    }
  }

  /**
   * `is_level_met`: `tags` is the message's `badges` tag, if any;
   * `privileged` says whether one comma-separated badge is a broadcaster,
   * moderator or VIP badge.
   */
  function IsLevelMet(c: C.Command, tags: Option<string>, privileged: string -> bool): bool {
    !c.elevated || (tags.Some? && AnyBadge(Split(tags.value, ','), privileged))
  }

  /** Anyone may run a plain command; an elevated one needs a privileged badge. */
  lemma LevelMet(c: C.Command, tags: Option<string>, privileged: string -> bool)
    ensures !c.elevated ==> IsLevelMet(c, tags, privileged)
    ensures c.elevated && tags.None? ==> !IsLevelMet(c, tags, privileged)
  {
  }

  lemma LevelMetUnfold(c: C.Command, badges: string, privileged: string -> bool)
    requires c.elevated
    ensures IsLevelMet(c, Some(badges), privileged) == AnyBadge(Split(badges, ','), privileged)
  {
  }

  /** With a `badges` tag, an elevated command runs exactly when one badge is privileged. */
  lemma LevelMetBadges(c: C.Command, badges: string, privileged: string -> bool)
    requires c.elevated
    ensures IsLevelMet(c, Some(badges), privileged) <==>
      exists i :: 0 <= i < |Split(badges, ',')| && privileged(Split(badges, ',')[i])
  {
    LevelMetUnfold(c, badges, privileged);
    AnyBadgeExists(Split(badges, ','), privileged);
  }
}
