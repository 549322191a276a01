/**
 * The per-channel custom-command store shared by the four command modules
 * (still_shaken/src/modules/responses.rs, modules/commands.rs,
 * bot/modules/commands.rs and bot/commands.rs): for every channel, a map
 * from command name to template body, and the rules by which moderators
 * set, add, edit and remove entries. Each rule gives the new store and the
 * reply sent.
 */
module ChannelStore {
  import opened Wrappers
  import opened Text

  /** Channel name to (command name to template body). */
  type Channels = map<string, map<string, string>>

  /** What a handler sends in the end. */
  datatype Out =
    | Silent                  // nothing is sent
    | Reply(text: string)     // a reply to the sender
    | Say(text: string)       // a message to the channel
    | Failed(text: string)    // the handler returns this error, nothing is sent
    | Panics                  // an `unwrap` fails

  const EmptyBody := "try again. you provided an empty command body"
  const Lol := "lol"

  function UpdatedReply(name: string, body: string): string {
    "updated '" + name + "' -> '" + body + "'"
  }

  function ExistsReply(name: string): string {
    "'" + name + "' already exists"
  }

  function MissingReply(name: string): string {
    "'" + name + "' does not exist"
  }

  function RemovedReply(name: string): string {
    "removed '" + name + "'"
  }

  /** A body that would make the bot run a chat command (`.` or `/`) is refused. */
  predicate Refused(body: string) {
    StartsWith(body, ".") || StartsWith(body, "/")
  }

  /** The channel has a command of that name. */
  predicate Has(chs: Channels, channel: string, name: string) {
    channel in chs && name in chs[channel]
  }

  /** `entry(channel).or_default().add_template(name, body)`. */
  function Upsert(chs: Channels, channel: string, name: string, body: string): (r: Channels)
    ensures Has(r, channel, name) && r[channel][name] == body
  {
    chs[channel := (if channel in chs then chs[channel] else map[])[name := body]]
  }

  /** `update_template`: an absent body or a refused one stores nothing. */
  function UpdateTemplate(chs: Channels, channel: string, name: string, body: Option<string>): (Channels, Out)
  {
    match body
    case None => (chs, Reply(EmptyBody))
    case Some(b) =>
      if Refused(b) then (chs, Reply(Lol))
      else (Upsert(chs, channel, name, b), Reply(UpdatedReply(name, b)))
  }

  /** `add`: an existing name is refused, anything else goes through `update_template`. */
  function Add(chs: Channels, channel: string, name: string, body: Option<string>): (Channels, Out)
  {
    if Has(chs, channel, name) then (chs, Reply(ExistsReply(name)))
    else UpdateTemplate(chs, channel, name, body)
  }

  /** `edit`: a missing channel or name is refused, anything else goes through `update_template`. */
  function Edit(chs: Channels, channel: string, name: string, body: Option<string>): (Channels, Out)
  {
    if !Has(chs, channel, name) then (chs, Reply(MissingReply(name)))
    else UpdateTemplate(chs, channel, name, body)
  }

  /** The store without the name in that channel (the channel itself stays). */
  function Without(chs: Channels, channel: string, name: string): (r: Channels)
    ensures !Has(r, channel, name)
  {
    if channel in chs then chs[channel := chs[channel] - {name}] else chs
  }

  /**
   * `remove` of the two asynchronous copies, as written: the reply says the
   * name does not exist exactly when it did and was removed.
   */
  function RemoveAsWritten(chs: Channels, channel: string, name: string): (Channels, Out)
  {
    if channel !in chs then (chs, Reply(MissingReply(name)))
    else if name in chs[channel] then (Without(chs, channel, name), Reply(MissingReply(name)))
    else (Without(chs, channel, name), Reply(RemovedReply(name)))
  }

  /** `remove` of the two synchronous copies: "removed" exactly when the name was there. */
  function Remove(chs: Channels, channel: string, name: string): (Channels, Out)
  {
    if channel !in chs then (chs, Reply(MissingReply(name)))
    else if name in chs[channel] then (Without(chs, channel, name), Reply(RemovedReply(name)))
    else (Without(chs, channel, name), Reply(MissingReply(name)))
  }

  /** The body stored for the name in that channel, if any. */
  function Stored(chs: Channels, channel: string, name: string): (r: Option<string>)
    ensures r.Some? <==> Has(chs, channel, name)
    ensures r.Some? ==> r.value == chs[channel][name]
  {
    if Has(chs, channel, name) then Some(chs[channel][name]) else None
  }

  /**
   * After a successful update the channel maps the name to the body, and
   * every other channel and every other name is as it was.
   */
  lemma UpsertStores(chs: Channels, channel: string, name: string, body: string)
    ensures Stored(Upsert(chs, channel, name, body), channel, name) == Some(body)
    ensures forall c, n :: (c != channel || n != name) ==>
      Stored(Upsert(chs, channel, name, body), c, n) == Stored(chs, c, n)
  {
  }

  /** `update_template` stores exactly when the body is present and not refused, and says so. */
  lemma UpdateTemplateRule(chs: Channels, channel: string, name: string, body: Option<string>)
    ensures var (r, out) := UpdateTemplate(chs, channel, name, body);
      (body.Some? && !Refused(body.value) ==>
         Stored(r, channel, name) == body && out == Reply(UpdatedReply(name, body.value)))
      && (body.None? ==> r == chs && out == Reply(EmptyBody))
      && (body.Some? && Refused(body.value) ==> r == chs && out == Reply(Lol))
  {
  }

  /** `add` of an existing name changes nothing. */
  lemma AddExisting(chs: Channels, channel: string, name: string, body: Option<string>)
    requires Has(chs, channel, name)
    ensures Add(chs, channel, name, body) == (chs, Reply(ExistsReply(name)))
  {
  }

  /** `edit` of a missing name changes nothing; of an existing one it is `update_template`. */
  lemma EditRule(chs: Channels, channel: string, name: string, body: Option<string>)
    ensures !Has(chs, channel, name) ==> Edit(chs, channel, name, body) == (chs, Reply(MissingReply(name)))
    ensures Has(chs, channel, name) ==> Edit(chs, channel, name, body) == UpdateTemplate(chs, channel, name, body)
  {
  }

  /** After either `remove`, the name is gone and nothing else has changed. */
  lemma RemoveClears(chs: Channels, channel: string, name: string)
    ensures !Has(Remove(chs, channel, name).0, channel, name)
    ensures !Has(RemoveAsWritten(chs, channel, name).0, channel, name)
    ensures RemoveAsWritten(chs, channel, name).0 == Remove(chs, channel, name).0
    ensures forall c, n :: (c != channel || n != name) ==>
      Stored(Remove(chs, channel, name).0, c, n) == Stored(chs, c, n)
  {
  }

  /** The synchronous `remove` says "removed" exactly when the name was there. */
  lemma RemoveReplies(chs: Channels, channel: string, name: string)
    ensures Remove(chs, channel, name).1 ==
      Reply(if Has(chs, channel, name) then RemovedReply(name) else MissingReply(name))
  {
  }

  /**
   * The asynchronous `remove` answers the other way round whenever the
   * channel exists: "does not exist" after a removal, "removed" when there
   * was nothing to remove.
   */
  lemma RemoveAsWrittenInverted(chs: Channels, channel: string, name: string)
    requires channel in chs
    ensures RemoveAsWritten(chs, channel, name).1 ==
      Reply(if Has(chs, channel, name) then MissingReply(name) else RemovedReply(name))
    ensures Has(chs, channel, name) ==> RemoveAsWritten(chs, channel, name).1 != Remove(chs, channel, name).1
  {
    assert MissingReply(name)[1] != RemovedReply(name)[1] || MissingReply(name) != RemovedReply(name) by {
      assert MissingReply(name)[0] == '\'' && RemovedReply(name)[0] == 'r';
    }
  }

  /** A concrete case: removing an existing `!hi` from `#c` answers "'hi' does not exist". */
  lemma RemoveInvertedExample()
    ensures RemoveAsWritten(map["#c" := map["hi" := "hello"]], "#c", "hi") ==
      (map["#c" := map[]], Reply("'hi' does not exist"))
  {
    var chs := map["#c" := map["hi" := "hello"]];
    assert map["hi" := "hello"] - {"hi"} == map[];
    assert Without(chs, "#c", "hi") == map["#c" := map[]];
    assert MissingReply("hi") == "'hi' does not exist";
  }

  /**
   * Adding a new name and removing it again gives the store back, except
   * that a channel created by the add stays behind with no commands.
   */
  lemma AddRemove(chs: Channels, channel: string, name: string, body: string)
    requires !Has(chs, channel, name) && !Refused(body)
    ensures Remove(Add(chs, channel, name, Some(body)).0, channel, name) ==
      (if channel in chs then chs else chs[channel := map[]], Reply(RemovedReply(name)))
  {
    var after := Add(chs, channel, name, Some(body)).0;
    assert after == Upsert(chs, channel, name, body);
    if channel in chs {
      assert chs[channel][name := body] - {name} == chs[channel];
      assert after == chs[channel := chs[channel][name := body]];
      assert Without(after, channel, name) == chs[channel := chs[channel]];
      assert chs[channel := chs[channel]] == chs;
    } else {
      assert map[name := body] - {name} == map[];
      assert after == chs[channel := map[name := body]];
      assert Without(after, channel, name) == chs[channel := map[]];
    }
  }

  /** The channel `c` is in `r` exactly as it is in `chs`. */
  predicate KeepsChannel(r: Channels, chs: Channels, c: string) {
    (c in r <==> c in chs) && (c in chs ==> r[c] == chs[c])
  }

  /** `add`, `edit` and `remove` change nothing outside their own channel. */
  lemma OnlyTheirChannel(chs: Channels, channel: string, name: string, body: Option<string>, c: string)
    requires c != channel
    ensures KeepsChannel(Add(chs, channel, name, body).0, chs, c)
    ensures KeepsChannel(Edit(chs, channel, name, body).0, chs, c)
    ensures KeepsChannel(Remove(chs, channel, name).0, chs, c)
  {
  }
}
