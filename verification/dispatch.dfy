/**
 * `CommandArgs` and `CommandDispatch` (still_shaken/src/bot/command_dispatch.rs):
 * the arguments a handler receives, and the table of commands that picks
 * the handler for a chat line.
 */
module Dispatch {
  import opened Wrappers
  import opened CommandTypes
  import Text
  import C = Commands

  /** The bindings a handler receives (`CommandArgs::map`). */
  datatype CommandArgs = CommandArgs(bindings: map<string, string>)

  /** `get_non_empty`: the value of `key`, unless it is missing or empty. */
  function GetNonEmpty(a: CommandArgs, key: string): (r: Option<string>)
    ensures r.None? <==> key !in a.bindings || a.bindings[key] == ""
    ensures r.Some? ==> r.value == a.bindings[key] && r.value != ""
  {
    if key in a.bindings && a.bindings[key] != "" then Some(a.bindings[key]) else None
  }

  /** `contains`. */
  predicate Contains(a: CommandArgs, key: string) {
    key in a.bindings
  }

  /** `Index<&str>`: indexing panics on a missing key, so the key must be bound. */
  function Index(a: CommandArgs, key: string): string
    requires Contains(a, key)
  {
    a.bindings[key]
  }

  /** A handler with the command it answers to (`StoredCommand`, or a pair given to `add`). */
  datatype Entry<H> = Entry(cmd: C.Command, handler: H)

  /**
   * The `commands` table. Commands compare equal when their help lines do,
   * so the table is keyed by the help line.
   */
  type Table<H> = map<string, Entry<H>>

  /**
   * `HashMap::insert` of an equal command: the handler is replaced, but the
   * key the map already holds, the earlier `Command`, is kept.
   */
  function Added<H>(t: Table<H>, cmd: C.Command, handler: H): (r: Table<H>)
  {
    if cmd.help in t then t[cmd.help := Entry(t[cmd.help].cmd, handler)]
    else t[cmd.help := Entry(cmd, handler)]
  }

  /** What the selection loop does in the end. */
  datatype Action<H> =
    | Run(handler: H, args: CommandArgs)   // the handler is called
    | Deny                                 // replies "you cannot do that"
    | Finish                               // `Ok(())`, nothing more is said

  /** The replies sent while scanning (help lines) and the final action. */
  datatype Dispatched<H> = Dispatched(replies: seq<string>, action: Action<H>)

  /** `ks` lists every key of the table exactly once: one iteration order of the `HashMap`. */
  predicate IsOrder<H>(t: Table<H>, ks: seq<string>) {
    (forall i :: 0 <= i < |ks| ==> ks[i] in t)
    && (forall k :: k in t ==> k in ks)
    && (forall i, j :: 0 <= i < j < |ks| ==> ks[i] != ks[j])
  }

  predicate Within<H>(t: Table<H>, ks: seq<string>) {
    forall i :: 0 <= i < |ks| ==> ks[i] in t
  }

  /**
   * The selection loop of `call` over the entries in the order `ks`, with
   * `levelMet` standing for `is_level_met` on the message.
   */
  function Select<H>(t: Table<H>, ks: seq<string>, data: string, levelMet: C.Command -> bool): Dispatched<H>
    requires Within(t, ks)
  {
    if ks == [] then Dispatched([], Finish)
    else
      var e := t[ks[0]];
      match C.Extraction(e.cmd, data)
      case NoMatch => Select(t, ks[1..], data, levelMet)
      case Required =>
        var d := Select(t, ks[1..], data, levelMet);
        Dispatched([e.cmd.help] + d.replies, d.action)
      case Found(m) =>
        Dispatched([], if levelMet(e.cmd) then Run(e.handler, CommandArgs(m)) else Deny)
  }

  /** Whether the command under `k` finds its arguments in `data`. */
  predicate Hit<H>(t: Table<H>, k: string, data: string)
    requires k in t
  {
    C.Extraction(t[k].cmd, data).Found?
  }

  /** The position of the first entry whose command finds its arguments in `data`. */
  function FirstFound<H>(t: Table<H>, ks: seq<string>, data: string): (r: Option<nat>)
    requires Within(t, ks)
    ensures r.Some? ==> r.value < |ks|
  {
    if ks == [] then None
    else if Hit(t, ks[0], data) then Some(0)
    else
      match FirstFound(t, ks[1..], data)
      case None => None
      case Some(i) => Some(i + 1)
  }

  /** The entry `FirstFound` names finds its arguments, and none before it does. */
  lemma {:induction false} FirstFoundHits<H>(t: Table<H>, ks: seq<string>, data: string)
    requires Within(t, ks) && FirstFound(t, ks, data).Some?
    ensures Hit(t, ks[FirstFound(t, ks, data).value], data)
    ensures forall j :: 0 <= j < FirstFound(t, ks, data).value ==> !Hit(t, ks[j], data)
  {
    if !Hit(t, ks[0], data) {
      FirstFoundHits(t, ks[1..], data);
      assert forall j :: 1 <= j < |ks| ==> ks[j] == ks[1..][j - 1];
    }
  }

  /** Without a position, no entry finds its arguments. */
  lemma {:induction false} FirstFoundNone<H>(t: Table<H>, ks: seq<string>, data: string)
    requires Within(t, ks) && FirstFound(t, ks, data).None?
    ensures forall j :: 0 <= j < |ks| ==> !Hit(t, ks[j], data)
  {
    if ks != [] {
      FirstFoundNone(t, ks[1..], data);
      assert forall j :: 1 <= j < |ks| ==> ks[j] == ks[1..][j - 1];
    }
  }

  /** The help lines of the entries that lack a required argument, in order. */
  function Helps<H>(t: Table<H>, ks: seq<string>, data: string): seq<string>
    requires Within(t, ks)
  {
    if ks == [] then []
    else
      (if C.Extraction(t[ks[0]].cmd, data).Required? then [t[ks[0]].cmd.help] else [])
      + Helps(t, ks[1..], data)
  }

  class CommandDispatch<H> {
    var commands: Table<H>

    /** `CommandDispatch::default()`. */
    constructor()
      ensures commands == map[]
    {
      commands := map[];
    }

    /** `add`, which always succeeds. */
    method Add(cmd: C.Command, handler: H)
      modifies this
      ensures commands == Added(old(commands), cmd, handler)
    {
      if cmd.help in commands {
        commands := commands[cmd.help := Entry(commands[cmd.help].cmd, handler)];
      } else {
        commands := commands[cmd.help := Entry(cmd, handler)];
      }
    }

    /** `add_stored`: the stored command and its handler go in as `add` puts them. */
    method AddStored(stored: Entry<H>)
      modifies this
      ensures commands == Added(old(commands), stored.cmd, stored.handler)
    {
      Add(stored.cmd, stored.handler);
    }

    /** `call`, with the table iterated in the order `order`. */
    method Call(order: seq<string>, data: string, levelMet: C.Command -> bool) returns (d: Dispatched<H>)
      requires IsOrder(commands, order)
      ensures d == Select(commands, order, data, levelMet)
    {
      var replies: seq<string> := [];
      var i := 0;
      while i < |order|
        invariant 0 <= i <= |order|
        invariant Select(commands, order, data, levelMet) == Prepend(replies, Select(commands, order[i..], data, levelMet))
      {
        var e := commands[order[i]];
        var x := C.Extract(e.cmd, data);
        assert order[i..][1..] == order[i + 1..];
        match x {
          case NoMatch =>
          case Required =>
            PrependAppend(replies, e.cmd.help, Select(commands, order[i + 1..], data, levelMet));
            replies := replies + [e.cmd.help];
          case Found(m) =>
            if !levelMet(e.cmd) {
              return Dispatched(replies, Deny);
            }
            return Dispatched(replies, Run(e.handler, CommandArgs(m)));
        }
        i := i + 1;
      }
      return Dispatched(replies, Finish);
    }
  }

  /** The bindings of a `Found` result, and no bindings otherwise. */
  function BindingsOf(x: ExtractResult): map<string, string> {
    match x
    case Found(m) => m
    case _ => map[]
  }

  /** Help lines already sent, in front of what the rest of the scan does. */
  function Prepend<H>(replies: seq<string>, d: Dispatched<H>): Dispatched<H> {
    Dispatched(replies + d.replies, d.action)
  }

  lemma PrependAppend<H>(replies: seq<string>, help: string, d: Dispatched<H>)
    ensures Prepend(replies, Dispatched([help] + d.replies, d.action)) == Prepend(replies + [help], d)
  {
    assert replies + ([help] + d.replies) == replies + [help] + d.replies;
  }

  /**
   * The selection rule: every entry before the first match that lacks a
   * required argument is answered with its help line; the first entry that
   * finds its arguments runs its handler if the sender's level allows and is
   * refused otherwise; with no such entry, nothing more happens.
   */
  lemma {:induction false} SelectRule<H>(t: Table<H>, ks: seq<string>, data: string, levelMet: C.Command -> bool)
    requires Within(t, ks)
    ensures var d := Select(t, ks, data, levelMet);
      match FirstFound(t, ks, data)
      case None => d == Dispatched(Helps(t, ks, data), Finish)
      case Some(i) =>
        var e := t[ks[i]];
        d.replies == Helps(t, ks[..i], data)
        && d.action == if levelMet(e.cmd) then Run(e.handler, CommandArgs(BindingsOf(C.Extraction(e.cmd, data)))) else Deny
  {
    if ks != [] {
      SelectRule(t, ks[1..], data, levelMet);
      match FirstFound(t, ks[1..], data) {
        case None =>
        case Some(i) =>
          assert ks[1..][..i] == ks[..i + 1][1..];
          assert ks[1..][i] == ks[i + 1];
      }
    }
  }

  /** A table holds the handler last added for a help line, and nothing else changes. */
  lemma AddedReplaces<H>(t: Table<H>, cmd: C.Command, handler: H)
    ensures cmd.help in Added(t, cmd, handler) && Added(t, cmd, handler)[cmd.help].handler == handler
    ensures cmd.help in t ==> Added(t, cmd, handler)[cmd.help].cmd == t[cmd.help].cmd
    ensures cmd.help !in t ==> Added(t, cmd, handler)[cmd.help].cmd == cmd
    ensures forall k :: k != cmd.help ==> (k in Added(t, cmd, handler) <==> k in t)
    ensures forall k :: k != cmd.help && k in t ==> Added(t, cmd, handler)[k] == t[k]
  {
  }

  /** With no entry finding its arguments, `call` ends quietly after the help replies. */
  lemma NothingFound<H>(t: Table<H>, ks: seq<string>, data: string, levelMet: C.Command -> bool)
    requires Within(t, ks)
    requires forall j :: 0 <= j < |ks| ==> C.Extraction(t[ks[j]].cmd, data).NoMatch?
    ensures Select(t, ks, data, levelMet) == Dispatched([], Finish)
  {
    SelectRule(t, ks, data, levelMet);
    NoHelps(t, ks, data);
  }

  lemma {:induction false} NoHelps<H>(t: Table<H>, ks: seq<string>, data: string)
    requires Within(t, ks)
    requires forall j :: 0 <= j < |ks| ==> C.Extraction(t[ks[j]].cmd, data).NoMatch?
    ensures Helps(t, ks, data) == []
  {
    if ks != [] {
      assert C.Extraction(t[ks[0]].cmd, data).NoMatch?;
      NoHelps(t, ks[1..], data);
    }
  }

  /** An elevated entry reached by a sender without the level runs nothing. */
  lemma DeniedRunsNothing<H>(t: Table<H>, ks: seq<string>, data: string, levelMet: C.Command -> bool)
    requires Within(t, ks)
    requires FirstFound(t, ks, data).Some? && !levelMet(t[ks[FirstFound(t, ks, data).value]].cmd)
    ensures Select(t, ks, data, levelMet).action == Deny
  {
    SelectRule(t, ks, data, levelMet);
  }

  /** `!maybe` reaches the handler of `!maybe <something?>` with `something` unbound. */
  lemma MaybeUnbound<H>(h: H, levelMet: C.Command -> bool)
    requires forall c :: levelMet(c)
    ensures var c := C.Command("maybe", "!maybe <something?>", [Arg("something", ArgKind.Optional)], false);
      Select(map[c.help := Entry(c, h)], [c.help], "!maybe", levelMet) == Dispatched([], Run(h, CommandArgs(map[])))
  {
    var c := C.Command("maybe", "!maybe <something?>", [Arg("something", ArgKind.Optional)], false);
    assert "!maybe"[1..] == "maybe";
    assert Text.TrimStartMatches("maybe", '!') == "maybe";
    assert C.Rest(c, "!maybe") == [];
    C.ExtractNoRequired(c, "!maybe");
    C.ExtractEmpty(c, "!maybe");
  }
}
