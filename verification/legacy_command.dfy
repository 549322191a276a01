/**
 * The older copy of the command parser (shaken_commands/src/parse.rs). It
 * shares the grammar, the checks and `extract` with `Commands`; it differs in
 * keeping the help line as written, leader included, and in counting a word as
 * a slot only when it is wrapped in both `<` and `>`.
 */
module LegacyCommands {
  import opened Wrappers
  import opened Text
  import opened CommandTypes
  import opened CommandError
  import opened Commands

  /** `Command::example` of parse.rs: the help line is kept verbatim. */
  function LegacyExample(input: string): Command {
    Command("", input, [], false)
  }

  /** `Command::build` of parse.rs. */
  method Build(c: Command) returns (r: Result<Command, Error>)
    ensures r == Built(c, BothBrackets)
  {
    r := Parse(c, BothBrackets);
  }

  /**
   * Built from `example`, the command keeps the leader in its help, yet the
   * name and the slots are what the leader-stripped line declares.
   */
  lemma KeepsLeader(input: string)
    ensures Built(LegacyExample(input), BothBrackets).Ok? <==> Built(Example(input), BothBrackets).Ok?
    ensures Built(LegacyExample(input), BothBrackets).Ok? ==>
      var b := Built(LegacyExample(input), BothBrackets).value;
      var n := Built(Example(input), BothBrackets).value;
      b.help == input && Display(b) == input && b.command == n.command && b.args == n.args
  {
    ExampleSchema(input, BothBrackets);
  }

  /** A word with only one of the brackets is a slot for command.rs but not for parse.rs. */
  lemma HalfBracketWords(k: string)
    requires PlainKey(k)
    ensures SlotText(BothBrackets, "<" + k) == None && SlotText(EitherBracket, "<" + k) == Some(k)
    ensures SlotText(BothBrackets, k + ">") == None && SlotText(EitherBracket, k + ">") == Some(k)
  {
    var open := "<" + k;
    assert open[0] == '<' && open[1..] == k;
    assert k[0] != '<';
    assert TrimStartMatches(k, '<') == k;
    assert TrimStartMatches(open, '<') == k;
    assert !EndsWith(k, ">") by {
      assert k[|k| - 1] != '>';
    }
    var close := k + ">";
    assert close[|close| - 1] == '>' && close[..|close| - 1] == k;
    assert TrimStartMatches(close, '<') == close;
    assert TrimEndMatches(close, ">") == TrimEndMatches(k, ">") by {
      assert close[|close| - 1..] == ">";
    }
  }

  /** A help line written from a well-formed schema builds back to that schema, help kept. */
  lemma LegacyRoundTrip(name: string, args: seq<Arg>)
    requires PlainName(name) && WellFormed(args)
    requires forall i :: 0 <= i < |args| ==> args[i].data != []
    ensures Built(LegacyExample(HelpLine(name, args)), BothBrackets)
      == Ok(Command(name, HelpLine(name, args), args, false))
  {
    HelpLineRoundTrip(name, args, BothBrackets);
  }
}
