/**
 * The synchronous custom-command handler (still_shaken/src/bot/modules/commands.rs,
 * and its older copy still_shaken/src/bot/commands.rs): one handler reads
 * every chat line; `!add`, `!edit` and `!remove` from the broadcaster or a
 * moderator change the store, and any other `!name` known in the channel is
 * answered with that command's template.
 */
module BotCommandStore {
  import opened Wrappers
  import opened Text
  import opened ChannelStore
  import opened Cmds
  import T = Templates
  import B = BotTemplates
  import F = Format

  /** The parts of a chat line the handler looks at. */
  datatype Message = Message(data: string, user: string, channel: string, broadcaster: bool, moderator: bool)

  /** Only the broadcaster and moderators may change the store. */
  predicate Elevated(msg: Message) {
    msg.broadcaster || msg.moderator
  }

  /**
   * The environment of bot/modules/commands.rs: the sender, the channel and
   * the time since the handler started, in words. The older copy applies an
   * empty environment instead.
   */
  function UptimeEnv(msg: Message, uptimeSecs: nat): T.Env {
    map["name" := msg.user, "channel" := msg.channel, "uptime" := F.Relative(uptimeSecs)]
  }

  /** The template stored for `head` in the channel, applied; a body that does not parse panics. */
  function Answer(chs: Channels, channel: string, head: string, env: T.Env): Out {
    match Stored(chs, channel, head)
    case None => Silent
    case Some(body) => if T.Keys(body).Ok? then Say(B.Apply(body, env)) else Panics
  }

  /** `handle`: the new store and what is sent. */
  function Handled(chs: Channels, msg: Message, env: T.Env): (Channels, Out) {
    match Parse(msg.data)
    case None => (chs, Silent)
    case Some(Cmd(head, arg, body)) =>
      if Elevated(msg) && arg.Some? && head == "add" then Add(chs, msg.channel, arg.value, body)
      else if Elevated(msg) && arg.Some? && head == "edit" then Edit(chs, msg.channel, arg.value, body)
      else if Elevated(msg) && arg.Some? && head == "remove" then Remove(chs, msg.channel, arg.value)
      else (chs, Answer(chs, msg.channel, head, env))
  }

  class Commands {
    /** The store, channel by channel. */
    var channels: Channels

    /** `new`: the store starts as the saved file holds it. */
    constructor(saved: Channels)
      ensures channels == saved
    {
      channels := saved;
    }

    /** `update_template`. */
    method UpdateTemplate(channel: string, name: string, body: Option<string>) returns (out: Out)
      modifies this
      ensures (channels, out) == ChannelStore.UpdateTemplate(old(channels), channel, name, body)
    {
      match body {
        case None =>
          out := Reply(EmptyBody);
        case Some(b) =>
          if StartsWith(b, ".") || StartsWith(b, "/") {
            out := Reply(Lol);
          } else {
            out := Reply(UpdatedReply(name, b));
            var commands := if channel in channels then channels[channel] else map[];
            channels := channels[channel := commands[name := b]];
          }
      }
    }

    /**
     * `handle`, with the environment the lookup applies as a parameter:
     * `UptimeEnv` in bot/modules/commands.rs, the empty one in bot/commands.rs.
     */
    method Handle(msg: Message, env: T.Env) returns (out: Out)
      modifies this
      ensures (channels, out) == Handled(old(channels), msg, env)
    {
      var cmd := Parse(msg.data);
      if cmd.None? {
        return Silent;
      }
      var Cmd(head, arg, body) := cmd.value;
      var elevated := msg.broadcaster || msg.moderator;
      if elevated && arg.Some? {
        var name := arg.value;
        if head == "add" {
          if msg.channel in channels && name in channels[msg.channel] {
            return Reply(ExistsReply(name));
          }
          out := UpdateTemplate(msg.channel, name, body);
          return;
        } else if head == "edit" {
          if msg.channel !in channels || name !in channels[msg.channel] {
            return Reply(MissingReply(name));
          }
          out := UpdateTemplate(msg.channel, name, body);
          return;
        } else if head == "remove" {
          if msg.channel !in channels {
            return Reply(MissingReply(name));
          }
          var removed := name in channels[msg.channel];
          channels := channels[msg.channel := channels[msg.channel] - {name}];
          return Reply(if removed then RemovedReply(name) else MissingReply(name));
        }
      }
      if msg.channel in channels && head in channels[msg.channel] {
        var template := channels[msg.channel][head];
        if T.Keys(template).Err? {
          return Panics;
        }
        return Say(B.Apply(template, env));
      }
      out := Silent;
    }
  }

  /** Nobody but the broadcaster and moderators can change the store. */
  lemma OnlyElevatedChange(chs: Channels, msg: Message, env: T.Env)
    requires !Elevated(msg)
    ensures Handled(chs, msg, env).0 == chs
  {
  }

  /** A line changes at most the channel it was sent in. */
  lemma OtherChannelsKept(chs: Channels, msg: Message, env: T.Env, c: string)
    requires c != msg.channel
    ensures KeepsChannel(Handled(chs, msg, env).0, chs, c)
  {
    var p := Parse(msg.data);
    if p.Some? && p.value.arg.Some? {
      OnlyTheirChannel(chs, msg.channel, p.value.arg.value, p.value.body, c);
    }
  }

  /** `!add name body` from a moderator is the store's `add` with that body. */
  lemma ModeratorAdds(chs: Channels, msg: Message, env: T.Env, name: string, body: string)
    requires Elevated(msg) && msg.data == "!add " + name + " " + body
    requires name != [] && NoWhitespace(name) && name[0] != '!'
    ensures Handled(chs, msg, env) == Add(chs, msg.channel, name, Some(body))
  {
    AddArg(name, body);
  }

  /** `!add name body` parses to the add command with that argument and body. */
  lemma AddArg(name: string, body: string)
    requires name != [] && NoWhitespace(name) && name[0] != '!'
    ensures Parse("!add " + name + " " + body) == Some(Cmd("add", Some(name), Some(body)))
  {
    ParseThree("add", name, body);
    assert "!" + "add" + " " == "!add ";
    assert "!add " + name + " " + body == "!" + "add" + " " + name + " " + body;
  }

  /**
   * `!add name ` with nothing after the space stores an empty body, unlike
   * the asynchronous module, which takes an empty body as none.
   */
  lemma EmptyBodyStored(chs: Channels, msg: Message, env: T.Env, name: string)
    requires Elevated(msg) && msg.data == "!add " + name + " "
    requires name != [] && NoWhitespace(name) && name[0] != '!'
    requires !Has(chs, msg.channel, name)
    ensures Handled(chs, msg, env).1 == Reply(UpdatedReply(name, ""))
    ensures Stored(Handled(chs, msg, env).0, msg.channel, name) == Some("")
  {
    assert msg.data == "!add " + name + " " + "";
    ModeratorAdds(chs, msg, env, name, "");
    assert !Refused("");
    UpsertStores(chs, msg.channel, name, "");
  }

  /** `!name` is answered with the template stored under that name in the channel, from anyone. */
  lemma CallAnswers(chs: Channels, msg: Message, env: T.Env, name: string)
    requires msg.data == "!" + name && name != [] && NoWhitespace(name)
    ensures Handled(chs, msg, env) == (chs, Answer(chs, msg.channel, name, env))
  {
    ParseHeadOnly(name);
  }

  /** The older copy applies an empty environment, so it says the stored body as written. */
  lemma EmptyEnvSaysBody(chs: Channels, channel: string, head: string)
    requires Stored(chs, channel, head).Some? && T.Keys(chs[channel][head]).Ok?
    ensures Answer(chs, channel, head, map[]) == Say(chs[channel][head])
  {
    var body := chs[channel][head];
    B.ApplyAgrees(body, map[]);
    T.SubstituteEmpty(body);
  }

  /** After a moderator's `!remove name`, the line `!name` gets no answer in that channel. */
  lemma RemoveThenSilent(chs: Channels, msg: Message, call: Message, env: T.Env, name: string)
    requires Elevated(msg) && msg.data == "!remove " + name
    requires name != [] && NoWhitespace(name) && name[0] != '!' && name != "add" && name != "edit" && name != "remove"
    requires call.data == "!" + name && call.channel == msg.channel
    ensures Handled(Handled(chs, msg, env).0, call, env).1 == Silent
  {
    RemoveArg(name);
    RemoveClears(chs, msg.channel, name);
    CallAnswers(Handled(chs, msg, env).0, call, env, name);
  }

  /** `!remove name` parses to the remove command with that argument. */
  lemma RemoveArg(name: string)
    requires name != [] && NoWhitespace(name) && name[0] != '!'
    ensures Parse("!remove " + name) == Some(Cmd("remove", Some(name), None))
  {
    var data := "!remove " + name;
    SplitTwo("remove", ' ', name);
    assert data[1..] == "remove" + [' '] + name;
  }
}
