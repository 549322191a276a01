/**
 * The bot's own copy of the template engine (still_shaken/src/template.rs):
 * the same scanner and substitution, with errors reported as their message
 * text and `SimpleTemplate::apply` unwrapping the parse.
 */
module BotTemplates {
  import opened Wrappers
  import opened Templates
  import L = TemplateLaws

  /** `ParsedTemplate::find_keys`, its errors turned into their messages. */
  function FindKeys(data: string): (r: Result<seq<string>, string>)
    ensures Keys(data).Ok? <==> r.Ok?
    ensures r.Ok? ==> r.value == Keys(data).value
    ensures r.Err? ==> r.error == ErrorMessage(Keys(data).error)
  {
    match Keys(data)
    case Ok(keys) => Ok(keys)
    case Err(e) => Err(ErrorMessage(e))
  }

  /**
   * `SimpleTemplate::apply`: the body must parse, since the code unwraps the
   * parse; its keys are then substituted in turn.
   */
  function Apply(data: string, env: Env): string
    requires Keys(data).Ok?
  {
    ApplyFrom(data, Keys(data).value, env)
  }

  /** On a body that parses, the two copies of `apply` give the same text. */
  lemma ApplyAgrees(data: string, env: Env)
    requires Keys(data).Ok?
    ensures Substitute(data, env) == Ok(Apply(data, env))
  {
  }

  /**
   * Applied to the text of a plain template with no one-byte key, every
   * bound placeholder becomes its value and every other one stays.
   */
  lemma ApplyDoc(doc: seq<L.Piece>, env: Env)
    requires L.Plain(doc) && L.FreeValues(env) && !L.AnyOneByte(L.HolesOf(doc))
    ensures Keys(L.Flat(doc)).Ok?
    ensures Apply(L.Flat(doc), env) == L.Flat(L.Fill(doc, env))
  {
    L.SubstituteDoc(doc, env);
  }

  /** The error messages of the three ways a body can fail to parse. */
  lemma RefusedMessages(doc: seq<L.Piece>, key: string)
    requires L.Plain(doc) && L.FreeKey(key)
    ensures FindKeys(L.Flat(doc) + "${" + key + "{") == Err("nested templates are not allowed")
    ensures FindKeys(L.Flat(doc) + "${" + key) == Err("non-terminated template found")
  {
    L.NestedRefused(doc, key, "");
    assert L.Flat(doc) + "${" + key + "{" + "" == L.Flat(doc) + "${" + key + "{";
    L.UnclosedRefused(doc, key);
  }

  /** A one-byte key is refused with the "empty templates" message. */
  lemma OneByteMessage(c: char)
    requires c < '\U{80}' && L.FreeKey([c])
    ensures FindKeys("${" + [c] + "}") == Err("empty templates are not allowed")
  {
    L.AsciiKeyRefused(c);
  }
}
