/**
 * The asynchronous custom-command module (still_shaken/src/modules/responses.rs;
 * still_shaken/src/modules/commands.rs is the same code except for how
 * `handle` applies a template). `!set`, `!add`, `!edit` and `!remove` change
 * the store; every other chat line that starts with a known command name
 * is answered with that command's template.
 */
module ChannelResponses {
  import opened Wrappers
  import opened Text
  import opened ChannelStore
  import T = Templates
  import B = BotTemplates

  /** `get_cmd`: the first word after the leading `!`s of a line that starts with one. */
  function GetCmd(data: string): Option<string> {
    if !StartsWith(data, "!") then None
    else FirstWord(TrimStartMatches(data, '!'))
  }

  /** The environment `handle` builds: the sender's name and the channel. */
  function Env(user: string, channel: string): T.Env {
    map["name" := user, "channel" := channel]
  }

  /**
   * `handle` of responses.rs: the stored template for the command name,
   * applied with `Environment::insert` of both names; a template that does
   * not parse makes `handle` return the parse error.
   */
  function Responded(chs: Channels, data: string, user: string, channel: string): Out {
    match GetCmd(data)
    case None => Silent
    case Some(head) =>
      match Stored(chs, channel, head)
      case None => Silent
      case Some(body) =>
        match T.Substitute(body, Env(user, channel))
        case Ok(s) => Say(s)
        case Err(e) => Failed(T.ErrorMessage(e))
  }

  /**
   * `handle` of modules/commands.rs: the same, but the bot's own
   * `SimpleTemplate::apply` unwraps the parse.
   */
  function RespondedUnwrapping(chs: Channels, data: string, user: string, channel: string): Out {
    match GetCmd(data)
    case None => Silent
    case Some(head) =>
      match Stored(chs, channel, head)
      case None => Silent
      case Some(body) =>
        if T.Keys(body).Ok? then Say(B.Apply(body, Env(user, channel))) else Panics
  }

  class Responses {
    /** The store, channel by channel. */
    var channels: Channels

    /** `new`: the store starts as the saved file holds it. */
    constructor(saved: Channels)
      ensures channels == saved
    {
      channels := saved;
    }

    /** `update_template`: check the body, reply, then store it. */
    method UpdateTemplate(channel: string, name: string, body: Option<string>) returns (out: Out)
      modifies this
      ensures (channels, out) == ChannelStore.UpdateTemplate(old(channels), channel, name, body)
    {
      if body.None? {
        return Reply(EmptyBody);
      }
      var b := body.value;
      if StartsWith(b, ".") || StartsWith(b, "/") {
        return Reply(Lol);
      }
      out := Reply(UpdatedReply(name, b));
      var commands := if channel in channels then channels[channel] else map[];
      channels := channels[channel := commands[name := b]];
    }

    /** `set_command`: always `update_template`. */
    method Set(channel: string, name: string, body: Option<string>) returns (out: Out)
      modifies this
      ensures (channels, out) == ChannelStore.UpdateTemplate(old(channels), channel, name, body)
    {
      out := UpdateTemplate(channel, name, body);
    }

    /** `add_command`. */
    method Add(channel: string, name: string, body: Option<string>) returns (out: Out)
      modifies this
      ensures (channels, out) == ChannelStore.Add(old(channels), channel, name, body)
    {
      if channel in channels && name in channels[channel] {
        return Reply(ExistsReply(name));
      }
      out := UpdateTemplate(channel, name, body);
    }

    /** `edit_command`. */
    method Edit(channel: string, name: string, body: Option<string>) returns (out: Out)
      modifies this
      ensures (channels, out) == ChannelStore.Edit(old(channels), channel, name, body)
    {
      if channel !in channels || name !in channels[channel] {
        return Reply(MissingReply(name));
      }
      out := UpdateTemplate(channel, name, body);
    }

    /**
     * `remove_command`, with the reply as this module words it: "does not
     * exist" after a removal, "removed" when nothing was there.
     */
    method Remove(channel: string, name: string) returns (out: Out)
      modifies this
      ensures (channels, out) == ChannelStore.RemoveAsWritten(old(channels), channel, name)
    {
      if channel !in channels {
        return Reply(MissingReply(name));
      }
      var removed := name in channels[channel];
      channels := channels[channel := channels[channel] - {name}];
      out := Reply(if removed then MissingReply(name) else RemovedReply(name));
    }

    /** `handle` of responses.rs. */
    method Handle(data: string, user: string, channel: string) returns (out: Out)
      ensures out == Responded(channels, data, user, channel)
    {
      var head := GetCmd(data);
      if head.None? || channel !in channels || head.value !in channels[channel] {
        return Silent;
      }
      var r := T.Substitute(channels[channel][head.value], Env(user, channel));
      out := if r.Ok? then Say(r.value) else Failed(T.ErrorMessage(r.error));
    }

    /** `handle` of modules/commands.rs. */
    method HandleUnwrapping(data: string, user: string, channel: string) returns (out: Out)
      ensures out == RespondedUnwrapping(channels, data, user, channel)
    {
      var head := GetCmd(data);
      if head.None? || channel !in channels || head.value !in channels[channel] {
        return Silent;
      }
      var body := channels[channel][head.value];
      if T.Keys(body).Err? {
        return Panics;
      }
      out := Say(B.Apply(body, Env(user, channel)));
    }
  }

  /** A line `!name` followed by whitespace or nothing names `name`, however many `!`s lead. */
  lemma GetCmdOf(bangs: string, w: string, rest: string)
    requires bangs != [] && forall i :: 0 <= i < |bangs| ==> bangs[i] == '!'
    requires w != [] && NoWhitespace(w) && w[0] != '!'
    requires rest == [] || IsWhitespace(rest[0])
    ensures GetCmd(bangs + w + rest) == Some(w)
  {
    var data := bangs + w + rest;
    assert data[0] == '!';
    TrimLeaders(bangs, w + rest);
    assert data == bangs + (w + rest);
    FirstWordOf(w, rest);
  }

  /** Leading copies of `!` are exactly what `TrimStartMatches` removes from the front. */
  lemma {:induction false} TrimLeaders(bangs: string, s: string)
    requires forall i :: 0 <= i < |bangs| ==> bangs[i] == '!'
    requires s != [] && s[0] != '!'
    ensures TrimStartMatches(bangs + s, '!') == s
    decreases |bangs|
  {
    if bangs == [] {
      assert bangs + s == s;
    } else {
      assert (bangs + s)[1..] == bangs[1..] + s;
      TrimLeaders(bangs[1..], s);
    }
  }

  /** A line without the leader is never answered. */
  lemma PlainLinesIgnored(chs: Channels, data: string, user: string, channel: string)
    requires data == [] || data[0] != '!'
    ensures Responded(chs, data, user, channel) == Silent
    ensures RespondedUnwrapping(chs, data, user, channel) == Silent
  {
    assert !StartsWith(data, "!");
  }

  /**
   * After `!set` stores a body, the line `!name` in that channel answers with
   * that body, applied to the sender and the channel.
   */
  lemma SetThenCall(chs: Channels, channel: string, name: string, body: string, user: string, rest: string)
    requires !Refused(body)
    requires name != [] && NoWhitespace(name) && name[0] != '!'
    requires rest == [] || IsWhitespace(rest[0])
    ensures var stored := ChannelStore.UpdateTemplate(chs, channel, name, Some(body)).0;
      Responded(stored, "!" + name + rest, user, channel) ==
        match T.Substitute(body, Env(user, channel))
        case Ok(s) => Say(s)
        case Err(e) => Failed(T.ErrorMessage(e))
  {
    GetCmdOf("!", name, rest);
    UpsertStores(chs, channel, name, body);
  }

  /** After `!remove`, the name is no longer answered in that channel. */
  lemma RemoveThenSilent(chs: Channels, channel: string, name: string, data: string, user: string)
    requires GetCmd(data) == Some(name)
    ensures Responded(ChannelStore.RemoveAsWritten(chs, channel, name).0, data, user, channel) == Silent
    ensures RespondedUnwrapping(ChannelStore.RemoveAsWritten(chs, channel, name).0, data, user, channel) == Silent
  {
    RemoveClears(chs, channel, name);
  }

  /**
   * The two copies of `handle` agree wherever the template parses; where it
   * does not, one returns the parse error and the other panics.
   */
  lemma HandleCopies(chs: Channels, data: string, user: string, channel: string)
    ensures !Responded(chs, data, user, channel).Failed? ==>
      RespondedUnwrapping(chs, data, user, channel) == Responded(chs, data, user, channel)
    ensures Responded(chs, data, user, channel).Failed? ==>
      RespondedUnwrapping(chs, data, user, channel) == Panics
  {
    var head := GetCmd(data);
    if head.Some? && Stored(chs, channel, head.value).Some? {
      var body := Stored(chs, channel, head.value).value;
      if T.Keys(body).Ok? {
        B.ApplyAgrees(body, Env(user, channel));
      }
    }
  }
}
