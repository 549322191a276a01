/**
 * The `!help` command (still_shaken/src/modules/help.rs): list every command,
 * or show the help text of one. The channel's custom commands are an input
 * here (they are read from the saved store in the code).
 */
module Help {
  import opened Wrappers
  import opened Text
  import C = Commands

  /** The names of the built-in commands, in their order. */
  function Names(builtins: seq<C.Command>): (r: seq<string>)
    ensures |r| == |builtins| && forall i :: 0 <= i < |r| ==> r[i] == builtins[i].command
  {
    seq(|builtins|, i requires 0 <= i < |builtins| => builtins[i].command)
  }

  /** The names of the custom commands, in their order. */
  function CustomNames(custom: seq<(string, string)>): (r: seq<string>)
    ensures |r| == |custom| && forall i :: 0 <= i < |r| ==> r[i] == custom[i].0
  {
    seq(|custom|, i requires 0 <= i < |custom| => custom[i].0)
  }

  /** One step of the fold: a separator after a non-empty accumulator, then `!name`. */
  function Step(a: string, name: string): string {
    (if a != "" then a + ", " else a) + "!" + name
  }

  /** The fold over the names, written as a left fold. */
  function Fold(names: seq<string>): string {
    if names == [] then "" else Step(Fold(names[..|names| - 1]), names[|names| - 1])
  }

  /** Each name with the leader in front. */
  function Bang(names: seq<string>): (r: seq<string>)
    ensures |r| == |names| && forall i :: 0 <= i < |r| ==> r[i] == "!" + names[i]
  {
    seq(|names|, i requires 0 <= i < |names| => "!" + names[i])
  }

  /** `format_commands`: built-ins first, then the custom commands. */
  function FormatCommands(builtins: seq<C.Command>, custom: seq<(string, string)>): string {
    Fold(Names(builtins) + CustomNames(custom))
  }

  /** The fold is the `!`-prefixed names joined with `", "`. */
  lemma {:induction false} FoldJoin(names: seq<string>)
    ensures Fold(names) == Join(", ", Bang(names))
    decreases |names|
  {
    if names != [] {
      var n := |names| - 1;
      var front := names[..n];
      FoldJoin(front);
      assert Bang(names) == Bang(front) + ["!" + names[n]];
      if front == [] {
        assert Fold(front) == "";
      } else {
        assert Bang(front) != [] && Bang(front)[0] == "!" + front[0];
        JoinHead(", ", Bang(front));
        JoinSnoc(", ", Bang(front), "!" + names[n]);
        assert Join(", ", Bang(front)) != "";
      }
    }
  }

  /** The listing names every built-in and then every custom command, each once, in order. */
  lemma FormatCommandsJoin(builtins: seq<C.Command>, custom: seq<(string, string)>)
    ensures FormatCommands(builtins, custom) == Join(", ", Bang(Names(builtins) + CustomNames(custom)))
  {
    FoldJoin(Names(builtins) + CustomNames(custom));
  }

  /**
   * The list `initialize` builds: the help command itself, then the
   * commands registered before it.
   */
  function HelpList(help: C.Command, registered: seq<C.Command>): seq<C.Command> {
    [help] + registered
  }

  /** The listing starts with the help command. */
  lemma ListingStartsWithHelp(help: C.Command, registered: seq<C.Command>, custom: seq<(string, string)>)
    ensures StartsWith(FormatCommands(HelpList(help, registered), custom), "!" + help.command)
  {
    var names := Names(HelpList(help, registered)) + CustomNames(custom);
    FormatCommandsJoin(HelpList(help, registered), custom);
    assert Bang(names)[0] == "!" + help.command;
    JoinHead(", ", Bang(names));
  }

  /** The first built-in whose name is `search`. */
  function FindBuiltin(builtins: seq<C.Command>, search: string): (r: Option<nat>)
    ensures r.Some? ==> r.value < |builtins| && builtins[r.value].command == search
    ensures r.Some? ==> forall j :: 0 <= j < r.value ==> builtins[j].command != search
    ensures r.None? ==> forall j :: 0 <= j < |builtins| ==> builtins[j].command != search
  {
    if builtins == [] then None
    else if builtins[0].command == search then Some(0)
    else
      var r := FindBuiltin(builtins[1..], search);
      assert forall j :: 1 <= j < |builtins| ==> builtins[j] == builtins[1..][j - 1];
      match r
      case None => None
      case Some(i) => Some(i + 1)
  }

  /** The body of the first custom command named `search`. */
  function FindCustom(custom: seq<(string, string)>, search: string): (r: Option<string>)
    ensures r.Some? ==> exists j :: 0 <= j < |custom| && custom[j] == (search, r.value)
    ensures r.None? ==> forall j :: 0 <= j < |custom| ==> custom[j].0 != search
  {
    if custom == [] then None
    else if custom[0].0 == search then Some(custom[0].1)
    else
      var r := FindCustom(custom[1..], search);
      assert forall j :: 1 <= j < |custom| ==> custom[j] == custom[1..][j - 1];
      r
  }

  /** The reply for a command nobody knows; it quotes the argument as given. */
  function Unknown(cmd: string): string {
    "I don't know what '" + cmd + "' is"
  }

  /** `lookup`: leading `!`s are ignored, built-ins are searched first, then custom commands. */
  function Lookup(builtins: seq<C.Command>, custom: seq<(string, string)>, cmd: string): string {
    var search := TrimStartMatches(cmd, '!');
    match FindBuiltin(builtins, search)
    case Some(i) => builtins[i].help
    case None =>
      match FindCustom(custom, search)
      case Some(body) => body
      case None => Unknown(cmd)
  }

  /** A built-in of that name answers with its help text, whatever the custom commands are. */
  lemma LookupBuiltinWins(builtins: seq<C.Command>, custom: seq<(string, string)>, cmd: string, i: nat)
    requires i < |builtins| && builtins[i].command == TrimStartMatches(cmd, '!')
    requires forall j :: 0 <= j < i ==> builtins[j].command != builtins[i].command
    ensures Lookup(builtins, custom, cmd) == builtins[i].help
  {
    var r := FindBuiltin(builtins, TrimStartMatches(cmd, '!'));
    assert r.Some?;
    assert !(r.value > i);
    assert r.value == i;
  }

  /** Without a built-in of that name, the first custom command of that name answers with its body. */
  lemma LookupCustom(builtins: seq<C.Command>, custom: seq<(string, string)>, cmd: string)
    requires forall j :: 0 <= j < |builtins| ==> builtins[j].command != TrimStartMatches(cmd, '!')
    ensures Lookup(builtins, custom, cmd) == match FindCustom(custom, TrimStartMatches(cmd, '!'))
      case Some(body) => body
      case None => Unknown(cmd)
  {
    assert FindBuiltin(builtins, TrimStartMatches(cmd, '!')).None?;
  }

  /** With no command of either kind of that name, the reply says the command is unknown. */
  lemma LookupUnknown(builtins: seq<C.Command>, custom: seq<(string, string)>, cmd: string)
    requires forall j :: 0 <= j < |builtins| ==> builtins[j].command != TrimStartMatches(cmd, '!')
    requires forall j :: 0 <= j < |custom| ==> custom[j].0 != TrimStartMatches(cmd, '!')
    ensures Lookup(builtins, custom, cmd) == Unknown(cmd)
  {
    assert FindBuiltin(builtins, TrimStartMatches(cmd, '!')).None?;
    assert FindCustom(custom, TrimStartMatches(cmd, '!')).None?;
  }

  /** Any number of leaders in front of a known name finds the same command. */
  lemma LookupLeaders(builtins: seq<C.Command>, custom: seq<(string, string)>, cmd: string)
    requires Lookup(builtins, custom, cmd) != Unknown(cmd)
    ensures Lookup(builtins, custom, "!" + cmd) == Lookup(builtins, custom, cmd)
  {
    assert ("!" + cmd)[1..] == cmd;
  }

  /** What `!help` says: a reply to the sender or a message to the channel. */
  datatype Said = Reply(text: string) | Say(text: string)

  /** `handle`: with a `command` argument the lookup is replied, otherwise the listing is said. */
  function Handle(builtins: seq<C.Command>, custom: seq<(string, string)>, args: map<string, string>): (r: Said)
    ensures "command" in args <==> r.Reply?
    ensures "command" in args ==> r.text == Lookup(builtins, custom, args["command"])
    ensures "command" !in args ==> r.text == Join(", ", Bang(Names(builtins) + CustomNames(custom)))
  {
    FormatCommandsJoin(builtins, custom);
    if "command" in args then Reply(Lookup(builtins, custom, args["command"]))
    else Say(FormatCommands(builtins, custom))
  }
}
