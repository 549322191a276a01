/**
 * The crates.io lookup commands (still_shaken/src/modules/crates.rs and the
 * older still_shaken/src/bot/crates.rs): which chat lines ask for a lookup,
 * and the lines said about the crate found. The HTTP request itself is not
 * modelled; its outcome is an input.
 */
module Crates {
  import opened Wrappers
  import opened Text
  import opened Util
  import opened CommandTypes
  import C = Commands
  import L = LegacyCommands
  import B = BotCommands
  import D = Dispatch

  /** The part of a crates.io answer the commands use. */
  datatype Crate = Crate(name: string, maxVersion: string, description: Option<string>, repository: Option<string>)

  /** What is sent: a reply to the sender or a message to the channel. */
  datatype Said = Reply(text: string) | Say(text: string)

  /** The longest description kept, in characters. */
  const DescriptionLimit: nat := 400

  // ---------------------------------------------------------------- lines of a description

  /** One `\r` before a line's `\n` belongs to the line ending. */
  function StripCr(l: string): string {
    if |l| > 0 && l[|l| - 1] == '\r' then l[..|l| - 1] else l
  }

  /**
   * `str::lines`: the text split at each `\n`, a `\r` right before a `\n`
   * dropped with it, and no empty last line after a final `\n`.
   */
  function Lines(desc: string): (r: seq<string>) {
    var p := Split(desc, '\n');
    Closed(p) + Open(p)
  }

  /** The pieces followed by a `\n`, each without the `\r` before it. */
  function Closed(p: seq<string>): (r: seq<string>)
    requires p != []
  {
    seq(|p| - 1, i requires 0 <= i < |p| - 1 => StripCr(p[i]))
  }

  /** The piece after the last `\n`, unless it is empty. */
  function Open(p: seq<string>): (r: seq<string>)
    requires p != []
  {
    if p[|p| - 1] == [] then [] else [p[|p| - 1]]
  }

  /** One step of the fold: a space after a non-empty text, then the line. */
  function Glue(s: string, l: string): string {
    (if s != [] then s + " " else s) + l
  }

  /** The fold in `fixup_description` over the lines, written as a left fold. */
  function JoinLines(lines: seq<string>): string {
    if lines == [] then "" else Glue(JoinLines(lines[..|lines| - 1]), lines[|lines| - 1])
  }

  /** The lines without the empty ones at the front. */
  function DropBlank(lines: seq<string>): (r: seq<string>)
    ensures r == [] || r[0] != []
    decreases |lines|
  {
    if lines != [] && lines[0] == [] then DropBlank(lines[1..]) else lines
  }

  /** `fixup_description`: the joined lines, cut to the limit, after `" | "`. */
  method FixupDescription(out: string, desc: string) returns (r: string)
    ensures r == out + " | " + Shrink(JoinLines(Lines(desc)), DescriptionLimit)
  {
    var lines := Lines(desc);
    var s := "";
    for i := 0 to |lines|
      invariant s == JoinLines(lines[..i])
    {
      if s != "" {
        s := s + " ";
      }
      s := s + lines[i];
      JoinLinesStep(lines, i);
    }
    assert lines[..|lines|] == lines;
    var short := ShrinkString(s, DescriptionLimit);
    r := out + " | " + short;
  }

  /** The fold over one more line glues that line on. */
  lemma JoinLinesStep(lines: seq<string>, i: nat)
    requires i < |lines|
    ensures JoinLines(lines[..i + 1]) == Glue(JoinLines(lines[..i]), lines[i])
  {
    assert lines[..i + 1][..i] == lines[..i];
  }

  /** Leading blank lines vanish; after the first non-blank line every line is joined with one space. */
  lemma {:induction false} JoinLinesDropsBlank(lines: seq<string>)
    ensures JoinLines(lines) == Join(" ", DropBlank(lines))
    decreases |lines|
  {
    if lines != [] {
      var n := |lines| - 1;
      var front := lines[..n];
      assert lines == front + [lines[n]];
      JoinLinesDropsBlank(front);
      DropBlankSnoc(front, lines[n]);
      if DropBlank(front) != [] {
        JoinHead(" ", DropBlank(front));
        JoinSnoc(" ", DropBlank(front), lines[n]);
      }
    }
  }

  /** Dropping the front blanks of one more line. */
  lemma {:induction false} DropBlankSnoc(lines: seq<string>, x: string)
    ensures DropBlank(lines + [x]) ==
      if DropBlank(lines) == [] then (if x == [] then [] else [x]) else DropBlank(lines) + [x]
    decreases |lines|
  {
    if lines == [] {
      assert lines + [x] == [x];
      assert [x][1..] == [];
    } else {
      assert (lines + [x])[0] == lines[0];
      if lines[0] == [] {
        assert (lines + [x])[1..] == lines[1..] + [x];
        DropBlankSnoc(lines[1..], x);
      }
    }
  }

  /** With no blank line at all, the description is its lines joined with single spaces. */
  lemma JoinLinesPlain(lines: seq<string>)
    requires forall i :: 0 <= i < |lines| ==> lines[i] != []
    ensures JoinLines(lines) == Join(" ", lines)
  {
    JoinLinesDropsBlank(lines);
  }

  /** A description of one line is that line. */
  lemma LinesSingle(desc: string)
    requires desc != [] && '\n' !in desc
    ensures Lines(desc) == [desc]
  {
    SplitNoSeparator(desc, '\n');
  }

  /** A line ended by `\r\n` is the text before them. */
  lemma LinesCrLf(a: string, b: string)
    requires '\n' !in a
    ensures Lines(a + "\r\n" + b) == [StripCr(a + "\r")] + Lines(b)
    ensures StripCr(a + "\r") == a
  {
    assert a + "\r\n" + b == (a + "\r") + ['\n'] + b;
    assert '\n' !in a + "\r";
    SplitAtSeparator(a + "\r", '\n', b);
    LinesCons(a + "\r\n" + b, a + "\r", b);
    assert (a + "\r")[..|a|] == a;
  }

  /** A text whose first piece is `x` and whose rest splits as `b` has the lines of `b` after `x`'s. */
  lemma LinesCons(s: string, x: string, b: string)
    requires Split(s, '\n') == [x] + Split(b, '\n')
    ensures Lines(s) == [StripCr(x)] + Lines(b)
  {
    var p := Split(b, '\n');
    var q := Split(s, '\n');
    ClosedCons(x, p);
    assert Open(q) == Open(p) by {
      assert q[|q| - 1] == p[|p| - 1];
    }
    Regroup([StripCr(x)], Closed(p), Open(p));
  }

  /** One more piece in front closes one more line in front. */
  lemma ClosedCons(x: string, p: seq<string>)
    requires p != []
    ensures Closed([x] + p) == [StripCr(x)] + Closed(p)
  {
    var q := [x] + p;
    forall i | 0 < i < |q| - 1
      ensures Closed(q)[i] == Closed(p)[i - 1]
    {
      assert q[i] == p[i - 1];
    }
  }

  lemma Regroup(a: seq<string>, b: seq<string>, c: seq<string>)
    ensures a + b + c == a + (b + c)
  {
  }

  /** No line holds a line break. */
  lemma LinesUnbroken(desc: string)
    ensures forall i :: 0 <= i < |Lines(desc)| ==> '\n' !in Lines(desc)[i]
  {
    SplitPieces(desc, '\n');
    var p := Split(desc, '\n');
    forall i | 0 <= i < |p| - 1
      ensures '\n' !in StripCr(p[i])
    {
      assert '\n' !in p[i];
    }
  }

  // ---------------------------------------------------------------- what is said

  /** The first line: name and newest version, then the description when there is one. */
  function Headline(c: Crate): string {
    var head := c.name + " = " + c.maxVersion;
    match c.description
    case None => head
    case Some(d) => head + " | " + Shrink(JoinLines(Lines(d)), DescriptionLimit)
  }

  function RepositoryLine(repo: string): string {
    "repository: " + repo
  }

  function DocumentationLine(c: Crate): string {
    "documentation: https://docs.rs/" + c.name + "/" + c.maxVersion + "/" + c.name
  }

  const LookupFailed := "I cannot do a lookup on crates.io :("

  function NotFound(input: string): string {
    "I cannot find anything for '" + input + "'"
  }

  /**
   * `handle` once the lookup has answered: `Err` when the request failed,
   * otherwise the crates found, the last of which is used (`pop`). The
   * documentation line is said by modules/crates.rs only.
   */
  function Answer(input: string, found: Result<seq<Crate>, string>, documentation: bool): seq<Said> {
    match found
    case Err(_) => [Reply(LookupFailed)]
    case Ok(cs) =>
      if cs == [] then [Reply(NotFound(input))]
      else
        var c := cs[|cs| - 1];
        [Say(Headline(c))]
        + (if c.repository.Some? then [Say(RepositoryLine(c.repository.value))] else [])
        + (if documentation then [Say(DocumentationLine(c))] else [])
  }

  /** `handle`, with the lookup's outcome as an input. */
  method Handle(input: string, found: Result<seq<Crate>, string>, documentation: bool) returns (said: seq<Said>)
    ensures said == Answer(input, found, documentation)
  {
    if found.Err? {
      return [Reply(LookupFailed)];
    }
    var crates := found.value;
    if crates == [] {
      return [Reply(NotFound(input))];
    }
    var c := crates[|crates| - 1];
    var out := c.name + " = " + c.maxVersion;
    if c.description.Some? {
      out := FixupDescription(out, c.description.value);
    }
    said := [Say(out)];
    if c.repository.Some? {
      said := said + [Say(RepositoryLine(c.repository.value))];
    }
    if documentation {
      said := said + [Say(DocumentationLine(c))];
    }
  }

  /**
   * The headline begins with `name = version`; after it comes `" | "` and a
   * prefix of the joined description, the whole of it when that has at most
   * 400 characters.
   */
  lemma HeadlineParts(c: Crate)
    requires c.description.Some?
    ensures var joined := JoinLines(Lines(c.description.value));
      exists t :: Headline(c) == c.name + " = " + c.maxVersion + " | " + t
        && StartsWith(joined, t)
        && (|joined| <= DescriptionLimit ==> t == joined)
  {
    var joined := JoinLines(Lines(c.description.value));
    var t := Shrink(joined, DescriptionLimit);
    ShrinkPrefix(joined, DescriptionLimit);
    assert StartsWith(joined, t);
    if |joined| <= DescriptionLimit {
      ShrinkShort(joined, DescriptionLimit);
    }
    assert Headline(c) == c.name + " = " + c.maxVersion + " | " + t;
  }

  /** The lines said for a crate found: the headline first, the repository and documentation after it. */
  lemma AnswerFound(input: string, cs: seq<Crate>, documentation: bool)
    requires cs != []
    ensures var said := Answer(input, Ok(cs), documentation);
      var c := cs[|cs| - 1];
      |said| == 1 + (if c.repository.Some? then 1 else 0) + (if documentation then 1 else 0)
      && said[0] == Say(Headline(c))
      && (forall i :: 0 <= i < |said| ==> said[i].Say?)
      && (documentation ==> said[|said| - 1] == Say(DocumentationLine(c)))
  {
  }

  // ---------------------------------------------------------------- which lines ask

  /** The command words of bot/crates.rs. */
  predicate CommandWord(w: string) {
    w == "!crate" || w == "!crates" || w == "!lookup"
  }

  /**
   * `handle` of bot/crates.rs: `splitn(2, char::is_whitespace)`; a command
   * word first, and the query is all the text after the first whitespace.
   */
  function Query(data: string): Option<string> {
    match FindWhitespace(data)
    case None => None
    case Some(i) => if CommandWord(data[..i]) then Some(data[i + 1..]) else None
  }

  /** The query is everything after a command word and one whitespace character, and can be empty. */
  lemma QueryOf(word: string, w: char, q: string)
    requires CommandWord(word) && IsWhitespace(w)
    ensures Query(word + [w] + q) == Some(q)
  {
    assert NoWhitespace(word);
    FindWhitespaceAt(word, w, q);
    var data := word + [w] + q;
    assert data[..|word|] == word && data[|word| + 1..] == q;
  }

  /** A query comes only after a command word and a whitespace character. */
  lemma QueryFrom(data: string)
    requires Query(data).Some?
    ensures exists i :: (0 <= i < |data| && CommandWord(data[..i]) && IsWhitespace(data[i])
      && Query(data).value == data[i + 1..])
  {
    var i := FindWhitespace(data).value;
    assert CommandWord(data[..i]) && IsWhitespace(data[i]);
  }

  /** A command word alone asks for nothing. */
  lemma NoQuery(word: string)
    requires CommandWord(word)
    ensures Query(word) == None
  {
    FindWhitespaceNone(word);
  }

  // ---------------------------------------------------------------- registration

  /** The slot all three commands declare. */
  const CrateSlot := Arg("crate", ArgKind.Required)

  /** The help lines `initialize` registers in modules/crates.rs. */
  const Registered := ["!crate <crate>", "!crates <crate>", "!lookup <crate>"]

  /** `!name <crate>` is how a help line writes the command `name` with the `crate` slot. */
  lemma CrateHelpLine(name: string)
    ensures C.HelpLine(name, [CrateSlot]) == "!" + name + " <crate>"
  {
    assert C.SlotWord(CrateSlot) == "<crate>";
    assert [name] + C.SlotWords([CrateSlot]) == [name, "<crate>"];
    assert Join(" ", [name, "<crate>"]) == name + " " + "<crate>";
  }

  /** The slot list `[crate]` is one the parser accepts. */
  lemma CrateSlotWellFormed()
    ensures C.WellFormed([CrateSlot]) && CrateSlot.data != []
  {
    assert AllAlphanumeric("crate");
  }

  /**
   * The command `initialize` registers for `name`: the bot's own `Command`
   * (still_shaken/src/bot/command.rs), whose `example` keeps the help line as
   * written, leader included.
   */
  function CrateCmd(name: string): C.Command {
    C.Command(name, "!" + name + " <crate>", [CrateSlot], false)
  }

  /** `Command::example("!name <crate>").build()` succeeds with the command `name`, its help kept with the `!`. */
  lemma CrateCommand(name: string)
    requires C.PlainName(name)
    ensures B.Outcome(L.LegacyExample("!" + name + " <crate>")) == Ok(CrateCmd(name))
    ensures CrateCmd(name).help == "!" + name + " <crate>" && CrateCmd(name).command == name
  {
    CrateHelpLine(name);
    CrateSlotWellFormed();
    L.LegacyRoundTrip(name, [CrateSlot]);
  }

  /** The names the three help lines declare. */
  const RegisteredNames := ["crate", "crates", "lookup"]

  /** Every help line `initialize` registers builds, under the bot's grammar, to the command of its name with the `crate` slot. */
  lemma RegisteredCommands()
    ensures |Registered| == |RegisteredNames|
    ensures forall i :: 0 <= i < |Registered| ==>
      B.Outcome(L.LegacyExample(Registered[i])) == Ok(CrateCmd(RegisteredNames[i]))
      && CrateCmd(RegisteredNames[i]).help == Registered[i]
  {
    forall i | 0 <= i < |Registered|
      ensures B.Outcome(L.LegacyExample(Registered[i])) == Ok(CrateCmd(RegisteredNames[i]))
      ensures CrateCmd(RegisteredNames[i]).help == Registered[i]
    {
      RegisteredLine(i);
      CrateCommand(RegisteredNames[i]);
    }
  }

  /**
   * `!name` alone lacks the crate: `call` answers with the registered help
   * line, leader included, and runs nothing.
   */
  lemma CrateExample<H>(name: string, h: H, levelMet: C.Command -> bool)
    requires C.PlainName(name)
    ensures var c := CrateCmd(name);
      D.Select(map[c.help := D.Entry(c, h)], [c.help], "!" + name, levelMet)
        == D.Dispatched(["!" + name + " <crate>"], D.Finish)
  {
    var c := CrateCmd(name);
    CrateRest(name, []);
    assert C.Extraction(c, "!" + name) == ExtractResult.Required by {
      assert "!" + name + [] == "!" + name;
      assert HasKind(c.args, {ArgKind.Required}) by {
        assert c.args[0].ty == ArgKind.Required;
      }
    }
  }

  /**
   * `!name query`, with a one-word query, binds `crate` to the query, which
   * the handler of modules/crates.rs reads; the sender's level decides whether
   * it runs.
   */
  lemma CrateQueryBound<H>(name: string, query: string, h: H, levelMet: C.Command -> bool)
    requires C.PlainName(name)
    requires query != [] && ' ' !in query && !IsWhitespace(query[0])
    ensures var c := CrateCmd(name);
      D.Select(map[c.help := D.Entry(c, h)], [c.help], "!" + name + " " + query, levelMet)
        == D.Dispatched([], if levelMet(c) then D.Run(h, D.CommandArgs(map["crate" := query])) else D.Deny)
  {
    var c := CrateCmd(name);
    CrateRest(name, " " + query);
    assert "!" + name + " " + query == "!" + name + (" " + query);
    assert TrimStart(" " + query) == query by {
      assert (" " + query)[1..] == query;
      assert IsWhitespace(' ');
    }
    CrateWalk(query);
  }

  /** After the leader and the name, the argument text is what follows with its leading whitespace trimmed. */
  lemma CrateRest(name: string, tail: string)
    requires C.PlainName(name)
    ensures var data := "!" + name + tail;
      StartsWith(TrimStartMatches(data, C.Leader), name)
      && C.Rest(CrateCmd(name), data) == TrimStart(tail)
  {
    var data := "!" + name + tail;
    assert data[0] == '!' && data[1..] == name + tail;
    assert TrimStartMatches(name + tail, '!') == name + tail by {
      assert (name + tail)[0] == name[0];
    }
    assert (name + tail)[..|name|] == name;
    assert (name + tail)[|name|..] == tail;
  }

  /** The one required slot takes a one-word query whole. */
  lemma CrateWalk(query: string)
    requires query != [] && ' ' !in query
    ensures C.Bind(C.Walk([CrateSlot], query)) == map["crate" := query]
  {
    assert C.Walk([CrateSlot], query) == [(CrateSlot, query)];
    assert C.Bind([(CrateSlot, query)]) == C.Bind([])[CrateSlot.data := query];
  }

  /** The `i`-th registered help line is `!name <crate>` for the `i`-th name, and that name is plain. */
  lemma RegisteredLine(i: nat)
    requires i < |Registered|
    ensures Registered[i] == "!" + RegisteredNames[i] + " <crate>" && C.PlainName(RegisteredNames[i])
  {
    if i == 0 {
      assert "!" + "crate" + " <crate>" == "!crate <crate>";
    } else if i == 1 {
      assert "!" + "crates" + " <crate>" == "!crates <crate>";
    } else {
      assert "!" + "lookup" + " <crate>" == "!lookup <crate>";
    }
  }
}
