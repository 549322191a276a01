# still_shaken, modelled in Dafny

still_shaken is a Twitch chat bot. This project models the parts of it that
decide what the bot does with a line of chat.

- **The command grammar** (crate `shaken_commands`, with two older copies in
  `parse.rs` and `still_shaken/src/bot/command.rs`). A help line such as
  `!hello <name> <other?> <rest...>` is compiled into a checked list of
  *slots*. Each slot is required, optional or flexible. A chat line is then
  matched against that list, with one of three outcomes:
  - `Found(bindings)`: the line names the command, and these are its arguments;
  - `Required`: the line names the command but a required argument is missing;
  - `NoMatch`.
- **The `${key}` template scanner and substitution** (crate `shaken_template`
  and its copy `still_shaken/src/template.rs`). This is what custom commands
  are written in.
- **The small parsers and formatters**:
  - the `!head arg body` splitter;
  - the IRC-tags builder;
  - the duration formatters `timestamp` and `relative_time`;
  - `shrink_string`;
  - the crates.io answer lines.
- **The bot's state**:
  - the type-keyed `State` map;
  - the command dispatch table and its selection rule;
  - `!help`;
  - the per-channel custom-command store. It exists in four copies: two
    asynchronous ones (`modules/responses.rs`, `modules/commands.rs`) and two
    synchronous ones (`bot/modules/commands.rs`, `bot/commands.rs`).

## How the model is organised

There is one Dafny module per source file. Copies that share code share one
definition:
- `Commands` holds the grammar. It is parameterised by the slot rule:
  `EitherBracket` for `command.rs`, `BothBrackets` for `parse.rs` and
  `bot/command.rs`. `LegacyCommands` and `BotCommands` add what those two
  copies do differently.
- `Templates` models `shaken_template` and `BotTemplates` models the bot's own
  copy. `TemplateLaws` states what a template text means, as a list of text
  and placeholder pieces, and proves that the scanner and substitution agree
  with that meaning.
- `ChannelStore` holds the store rules of the four custom-command modules.
  `ChannelResponses` models the asynchronous copies and `BotCommandStore`
  the synchronous ones.

Operations that change state in the source are Dafny classes with `modifies`
clauses:
- `State.insert`;
- `CommandDispatch.add`;
- `TagsBuilder.add` and `TagsBuilder.merge_with`;
- the store modules' `set`, `add`, `edit`, `remove` and `handle`.

Each such method is proved equal to a function of the old state. The loops of
the source are methods with loop invariants, proved equal to a specifying
function:
- `parse` and `extract`;
- `find_keys`, with its two loops;
- template `apply`;
- `relative_time` and its punctuation pass;
- `shrink_string`;
- `call`;
- `build` of the tags;
- `fixup_description`.

The model takes the following inputs as parameters:
- The iteration order of every `HashMap` the code walks (dispatch
  `call`, `TagsBuilder::build`). It is an arbitrary list of the keys.
- The badge test of `is_level_met`, as a predicate on a badge name.
- Whether the sender is the broadcaster or a moderator, as two booleans.
- The seconds since the bot started (the `uptime` value).
- The outcome of the crates.io lookup.
- The saved store a module starts from.

Strings are sequences of Unicode scalar values. Where the code indexes by
byte (`char_indices`, `is_char_boundary`, `tail == head + 3`), the model
converts with the UTF-8 width of each character (module `Utf8`). Rust's
`char::is_whitespace` is written out as the full Unicode White_Space list.

In these places the code does something other than what its documentation
or its tests suggest. The model follows the code:
- `extract` removes every leading `!`, not only one, because it uses
  `trim_start_matches` (`Commands.ExtractLeaders`).
- `parse` fails with `NoCommand` whenever the help line is nothing but `!`s
  (`Commands.SchemaNoCommand`), not only for the empty line and a single `!`.
- `command.rs` stores the help line without its leader, so a command built
  from `!foo <req>` displays as `foo <req>` (`CommandExamples.DisplayOmitsLeader`).
  The `display` test in `tests.rs` expects the leader to be kept.
- Command names match as prefixes, so a command `go` also answers `!gopher`
  (`Commands.PrefixMatches`).

## Model

| member | source | states |
|---|---|---|
| Commands.Elevated | crates/still_shaken/src/bot/command.rs:63-66 | `elevated()` sets the flag and keeps the name, the help line and the slots |
| Commands.ClassifyKinds | crates/shaken_commands/src/command.rs:118-123 | a key ending in `?` is optional; otherwise one ending in `...` is flexible; otherwise it is required. The stored key is the word without those suffixes |
| Commands.TrimArgsSlot | crates/shaken_commands/src/command.rs:157-166 | a word is a slot exactly when it starts with `<` or ends with `>` |
| Commands.SlotRulesAgree | crates/shaken_commands/src/parse.rs:147-148 | a word that is a slot under the both-brackets rule is the same slot under the either-bracket rule |
| Commands.Parse | crates/shaken_commands/src/command.rs:105-155 | the parsing loop (early return on the first error) computes exactly the specified schema outcome |
| Commands.ParseSlots | crates/shaken_commands/src/command.rs:116-149 | the per-slot loop admits the slots one by one, stopping at the first error |
| Commands.Build | crates/shaken_commands/src/command.rs:52-54 | `build` is `parse` under the either-bracket rule |
| Commands.AdmitWellFormed | crates/shaken_commands/src/command.rs:125-146 | one slot is accepted exactly when the list stays well formed: keys distinct and alphanumeric, kinds non-decreasing, a flexible slot only at the end |
| Commands.AdmittedWellFormed | crates/shaken_commands/src/command.rs:133-149 | a slot list is accepted exactly when it is well formed, and then it comes back unchanged, in declared order |
| Commands.AdmittedRejects | crates/shaken_commands/src/command.rs:125-146 | a refusal names the first slot that breaks the rules, and the error is the one the checks give in their order: duplicate, then characters, then ordering |
| Commands.AdmittedNeverNoCommand | crates/shaken_commands/src/command.rs:125-146 | the slot checks never report a missing command |
| Commands.SchemaNoCommand | crates/shaken_commands/src/command.rs:108-113 | `NoCommand` exactly when the help line is empty once every leading `!` is removed |
| Commands.SchemaOk | crates/shaken_commands/src/command.rs:152-154 | success exactly when there is a first word and its slots are well formed; the name is the first word and the slots follow in order |
| Commands.SchemaRejects | crates/shaken_commands/src/command.rs:125-146 | every other error comes from the first slot that breaks a rule |
| Commands.BuiltCommand | crates/shaken_commands/src/command.rs:52-54 | a built command keeps its help text and flag, has well-formed slots, and displays as its help text |
| Commands.HashAgreesWithEq | crates/shaken_commands/src/command.rs:22-32 | commands equal by help text also have equal names, so hashing by name agrees with equality |
| Commands.ExampleHelp | crates/shaken_commands/src/command.rs:40-45 | `example` strips every leading `!` and makes a command that is not elevated, with no name and no slots |
| Commands.ExampleSchema | crates/shaken_commands/src/command.rs:40-45 | stripping the leaders in `example` does not change the schema the help line declares |
| Commands.WalkSlots | crates/shaken_commands/src/command.rs:86-100 | each bound value goes with the slot at the same position, so the bound slots are a prefix of the slot list |
| Commands.WalkPrefix | crates/shaken_commands/src/command.rs:86-100 | the bound values, joined with single spaces, are a prefix of the argument text |
| Commands.WalkFlexible | crates/shaken_commands/src/command.rs:86-100 | a flexible slot is the last slot bound, and it takes the whole remaining text |
| Commands.WalkExhausts | crates/shaken_commands/src/command.rs:86-100 | when slots are left unbound, the text has run out, apart from at most one trailing space |
| Commands.WalkNoSpace | crates/shaken_commands/src/command.rs:86-100 | a value bound to a required or optional slot holds no space |
| Commands.BindKeys | crates/shaken_commands/src/command.rs:89-96 | the bindings have as keys exactly the keys of the slots that were walked |
| Commands.BindDistinct | crates/shaken_commands/src/command.rs:89-96 | with distinct keys, each key is bound to the value walked for it |
| Commands.Extract | crates/shaken_commands/src/command.rs:72-103 | the extraction loop computes the specified outcome |
| Commands.Fill | crates/shaken_commands/src/command.rs:86-100 | the walking loop builds the bindings of the walk |
| Commands.ExtractLeaders | crates/shaken_commands/src/command.rs:75 | one more leading `!` never changes the outcome |
| Commands.ExtractNoRequired | crates/shaken_commands/src/command.rs:79-82 | a command with no required slot never answers `Required` |
| Commands.ExtractFound | crates/shaken_commands/src/command.rs:76-102 | `Found` only when the line names the command; the bound keys are those of a prefix of the slots, each with its walked value |
| Commands.ExtractEmpty | crates/shaken_commands/src/command.rs:79-102 | a `Found` binds nothing exactly when there is no argument text or no slot |
| Commands.HelpLineSchema | crates/shaken_commands/src/command.rs:105-155 | a help line written from a name and well-formed slots parses back to that name and those slots |
| Commands.HelpLineRoundTrip | crates/shaken_commands/src/command.rs:40-54 | `example(line).build()` of such a help line gives the command with that name and those slots |
| Commands.ChatLineRest | crates/shaken_commands/src/command.rs:75-79 | a chat line `!name words…` names the command, and its argument text is the words joined by single spaces |
| Commands.PrefixMatches | crates/shaken_commands/src/command.rs:76-78 | the name matches as a prefix: `go` matches `!gopher` |
| Commands.WalkWordsStep | crates/shaken_commands/src/command.rs:86-96 | a required or optional slot takes the first of several words |
| Commands.WalkLastWord | crates/shaken_commands/src/command.rs:86-100 | the last word goes to the next slot whatever its kind |
| Commands.WalkFlexibleRest | crates/shaken_commands/src/command.rs:86-100 | a flexible slot takes all remaining words joined by spaces |
| CommandTypes.HasKindIff | crates/shaken_commands/src/lib.rs:10-21 | a slot list has a slot of one of the given kinds exactly when some position holds one |
| CommandTypes.Keys | crates/shaken_commands/src/command.rs:68-70 | `keys()` lists the slot keys in declared order |
| CommandError.Message | crates/shaken_commands/src/error.rs:11-22 | only `DuplicateKey` displays as `duplicate key found: ` followed by its key |
| CommandError.MessageInjective | crates/shaken_commands/src/error.rs:11-22 | different errors display differently |
| CommandExamples.ParseGood1 | crates/shaken_commands/src/tests.rs:6 | `!foo <req> <opt?>` builds |
| CommandExamples.ParseGood2 | crates/shaken_commands/src/tests.rs:7 | `!foo <req> <opt?> <opt2?>` builds |
| CommandExamples.ParseGood3 | crates/shaken_commands/src/tests.rs:8 | `!foo <req> <opt?> <flex...>` builds |
| CommandExamples.ParseGood4 | crates/shaken_commands/src/tests.rs:9 | `!foo <req> <flex...>` builds |
| CommandExamples.ParseGood5 | crates/shaken_commands/src/tests.rs:10 | `!foo <flex...>` builds |
| CommandExamples.ParseGood6 | crates/shaken_commands/src/tests.rs:11 | `!foo <opt?> <flex...>` builds |
| CommandExamples.ParseGood7 | crates/shaken_commands/src/tests.rs:12 | `!foo <opt?> <opt2?> <flex...>` builds |
| CommandExamples.ParseFailure1 | crates/shaken_commands/src/tests.rs:40 | `!foo <opt?> <req>` fails with `RequiredInTail` |
| CommandExamples.ParseFailure2 | crates/shaken_commands/src/tests.rs:41 | `!foo <flex...> <opt?>` fails with `OptionalAfterFlex` |
| CommandExamples.ParseFailure3 | crates/shaken_commands/src/tests.rs:42 | `!foo <flex...> <req>` fails |
| CommandExamples.ParseFailure4 | crates/shaken_commands/src/tests.rs:43 | `!foo <req> <opt?> <req2>` fails |
| CommandExamples.ParseFailure5 | crates/shaken_commands/src/tests.rs:44 | `!foo <dup> <opt?> <dup>` fails with `DuplicateKey("dup")` |
| CommandExamples.ParseFailure6 | crates/shaken_commands/src/tests.rs:45 | `!foo <flex1...> <flex2...>` fails |
| CommandExamples.ParseFailure7 | crates/shaken_commands/src/tests.rs:46 | `!foo <opt?> <flex1...> <flex2...>` fails |
| CommandExamples.ParseFailure8 | crates/shaken_commands/src/tests.rs:47 | `!foo <req> <opt?> <flex1...> <flex2...>` fails |
| CommandExamples.BuildsTo | crates/shaken_commands/src/tests.rs:15-17 | `example(line).build()` succeeds on every well-formed help line |
| CommandExamples.HelloBuilds1 | crates/shaken_commands/src/tests.rs:59-61 | `!hello <name> <other?> <rest...>` builds with those three slots |
| CommandExamples.HelloBuilds2 | crates/shaken_commands/src/tests.rs:78 | `!hello <name> <other>` builds with two required slots |
| CommandExamples.HelloBuilds3 | crates/shaken_commands/src/tests.rs:94-96 | `!hello <name> <other> <tail...>` builds |
| CommandExamples.MatchedAll | crates/shaken_commands/src/tests.rs:63-65 | `!hello world this is a test` binds all three slots |
| CommandExamples.MatchedName | crates/shaken_commands/src/tests.rs:63-65 | `!hello world` binds only `name`, a non-empty map |
| CommandExamples.MatchedRequired | crates/shaken_commands/src/tests.rs:67 | `!hello` is `Required` |
| CommandExamples.MatchedOther | crates/shaken_commands/src/tests.rs:69-71 | a line naming another command is `NoMatch` |
| CommandExamples.MatchedNothing | crates/shaken_commands/src/tests.rs:69-71 | `!` and the empty line are `NoMatch` |
| CommandExamples.ExtractDropsExtra | crates/shaken_commands/src/tests.rs:79-85 | `!hello world testing this` binds `name` and `other` and drops the extra word |
| CommandExamples.ExtractTwo | crates/shaken_commands/src/tests.rs:87-92 | `!hello world testing` binds `name` and `other`, with or without a tail slot |
| CommandExamples.ExtractTail | crates/shaken_commands/src/tests.rs:98-104 | the flexible `tail` takes `this is the tail` |
| CommandExamples.DisplayOmitsLeader | crates/shaken_commands/src/tests.rs:33 | the built command displays as the help line without its `!`, not as the line the test expects |
| LegacyCommands.Build | crates/shaken_commands/src/parse.rs:80-82 | `build` of parse.rs is the schema parse under the both-brackets rule |
| LegacyCommands.KeepsLeader | crates/shaken_commands/src/parse.rs:71-78 | `example` keeps the leader in the help and display, yet the name and slots are those of the stripped line |
| LegacyCommands.HalfBracketWords | crates/shaken_commands/src/parse.rs:147-148 | `<k` and `k>` are slots for command.rs but not for parse.rs |
| LegacyCommands.LegacyRoundTrip | crates/shaken_commands/src/parse.rs:133-193 | a help line written from a well-formed schema builds back to that schema, with the help line kept |
| BotCommands.Build | crates/still_shaken/src/bot/command.rs:68-70 | `build` gives the command of the schema parse, or its error message as text |
| BotCommands.OutcomeMessages | crates/still_shaken/src/bot/command.rs:140-197 | it succeeds exactly when the shared parse does, and each error is the message of the shared error |
| BotCommands.ElevatedKeepsGrammar | crates/still_shaken/src/bot/command.rs:63-70 | `elevated()` changes neither parsing nor extraction |
| BotCommands.LevelMet | crates/still_shaken/src/bot/command.rs:80-88 | a command that is not elevated always passes; an elevated one fails when the line has no badges tag |
| BotCommands.LevelMetBadges | crates/still_shaken/src/bot/command.rs:90-96 | an elevated command passes exactly when one of the comma-separated badges is privileged |
| BotCommands.AnyBadgeExists | crates/still_shaken/src/bot/command.rs:91-96 | the fold over the badges is an existential over them |
| Templates.ErrorMessage | crates/shaken_template/src/lib.rs:18-27 | a custom error displays its own text; of the scanner errors, every one but `NonTerminated` ends in ` allowed` |
| Templates.ErrorMessagesDiffer | crates/shaken_template/src/lib.rs:18-27 | the three scanner errors display differently |
| Templates.ScanAlternates | crates/shaken_template/src/lib.rs:164-184 | a successful scan records openings and closings that alternate, each closing after its opening |
| Templates.FindKeys | crates/shaken_template/src/lib.rs:159-198 | the two loops of `find_keys` compute exactly the specified keys or error |
| Templates.PairKeys | crates/shaken_template/src/lib.rs:186-197 | the pairing loop computes the specified keys or `EmptyTemplate` |
| Templates.EmptyMeansOneByte | crates/shaken_template/src/lib.rs:190-195 | a closing brace three bytes after its `$` means a key of exactly one one-byte character |
| Templates.Placeholder | crates/shaken_template/src/lib.rs:151 | the placeholder is the key plus three characters, starting with `$` |
| Templates.Insert | crates/shaken_template/src/lib.rs:86-90 | `insert` binds the key, overwriting it, and keeps every other binding |
| Templates.Apply | crates/shaken_template/src/lib.rs:147-157 | the replacement loop computes the specified text |
| Templates.ApplyEmptyEnv | crates/shaken_template/src/lib.rs:147-157 | with nothing bound, `apply` leaves the text as it was |
| Templates.SubstituteEmpty | crates/shaken_template/src/lib.rs:130-133 | `SimpleTemplate::apply` with an empty environment gives the body back, or passes on the parse error |
| TemplateLaws.KeysOfDoc | crates/shaken_template/src/lib.rs:159-198 | for a template of free text (lone `$` signs allowed) and placeholders with free keys, the keys are the placeholders' keys in order, or `EmptyTemplate` exactly when one of them is a single byte |
| TemplateLaws.SubstituteDoc | crates/shaken_template/src/lib.rs:130-157 | on such a template, with values that spell no placeholder, substitution replaces each bound placeholder by its value and keeps each unbound one verbatim |
| TemplateLaws.ApplyDoc | crates/shaken_template/src/lib.rs:147-157 | on such a template, with values that spell no placeholder, `apply` with the parsed keys fills exactly the bound placeholders |
| TemplateLaws.ReplaceDoc | crates/shaken_template/src/lib.rs:151 | on such a template, replacing one key's placeholder fills exactly that key's placeholders, whatever the value |
| TemplateLaws.ScanText | crates/shaken_template/src/lib.rs:165-179 | outside a placeholder, every character that does not open one, a lone `$` included, is passed over |
| TemplateLaws.LoneDollarPassed | crates/shaken_template/src/lib.rs:165-179 | a `$` not followed by `{` opens nothing and the scan goes on at the next character |
| TemplateLaws.TextBeforeHole | crates/shaken_template/src/lib.rs:130-198 | text with lone `$` signs before one placeholder: the key is found and the value replaces only the placeholder |
| TemplateLaws.DollarKept | crates/shaken_template/src/lib.rs:130-198 | `costs $5, ${name}` has the one key `name` and with `name` bound to `bob` gives `costs $5, bob` |
| TemplateLaws.Resubstituted | crates/shaken_template/src/lib.rs:147-157 | keys are replaced one after another in the text already filled, so a value spelling a later key's placeholder is filled in its turn |
| TemplateLaws.ResubstitutedValue | crates/shaken_template/src/lib.rs:147-157 | `${name} ${channel}` with `name` bound to `${channel}` and `channel` to `#c` gives `#c #c` |
| TemplateLaws.ScanKey | crates/shaken_template/src/lib.rs:165-179 | inside a placeholder, any character but `$`, `{` and `}` is passed over |
| TemplateLaws.NestedRefused | crates/shaken_template/src/lib.rs:172 | a `{` inside an open placeholder is `NestedTemplates`, whatever follows |
| TemplateLaws.UnclosedRefused | crates/shaken_template/src/lib.rs:182-184 | a placeholder never closed is `NonTerminated` |
| TemplateLaws.ReopenRefused | crates/shaken_template/src/lib.rs:174-184 | a `${` inside an open placeholder leaves one opening unmatched, so the text is `NonTerminated` |
| TemplateLaws.EmptyKeyAccepted | crates/shaken_template/src/lib.rs:186-197 | `${}` is accepted, with the empty key |
| TemplateLaws.AsciiKeyRefused | crates/shaken_template/src/lib.rs:191-193 | a key of one ASCII character is refused as `EmptyTemplate` |
| TemplateLaws.WideKeyAccepted | crates/shaken_template/src/lib.rs:191-193 | a key of one character wider than a byte is accepted |
| BotTemplates.FindKeys | crates/still_shaken/src/template.rs:126-167 | the bot's `find_keys` gives the same keys, with the errors as their text messages |
| BotTemplates.ApplyAgrees | crates/still_shaken/src/template.rs:97-124 | on a body that parses, the bot's `apply` is the library's substitution |
| BotTemplates.ApplyDoc | crates/still_shaken/src/template.rs:114-124 | on a template of free text and free keys, none a single byte, with values that spell no placeholder, the bot's `apply` fills exactly the bound placeholders |
| BotTemplates.RefusedMessages | crates/still_shaken/src/template.rs:139-153 | a nested `{` and an unclosed placeholder give the two messages |
| BotTemplates.OneByteMessage | crates/still_shaken/src/template.rs:160-162 | a one-byte key gives "empty templates are not allowed" |
| Format.Pad2 | crates/still_shaken/src/format.rs:10-14 | a field is written with at least two digits |
| Format.ValuePad2 | crates/still_shaken/src/format.rs:10-14 | a padded field reads back as its number |
| Format.FieldsBounds | crates/still_shaken/src/format.rs:8-14 | the hours field appears exactly from 3600 seconds on; minutes and seconds are below 60 |
| Format.Decompose | crates/still_shaken/src/format.rs:9 | hours, minutes and seconds add back up to the input |
| Format.TimestampRoundTrip | crates/still_shaken/src/format.rs:7-15 | a timestamp reads back as the seconds it was made from |
| Format.TimestampShort | crates/still_shaken/src/lib.rs:22-31 | 61 seconds is `01:01` |
| Format.TimestampLong | crates/still_shaken/src/lib.rs:22-31 | 3661 seconds is `01:01:01` |
| Format.RelativeTime | crates/still_shaken/src/format.rs:17-76 | the loop of `relative_time` computes the specified phrase |
| Format.Punctuate | crates/still_shaken/src/format.rs:42-50 | the comma and "and" pass computes the specified punctuation |
| Format.PunctuatedCons | crates/still_shaken/src/lib.rs:58-68 | with three or more parts, every part but the last two gets a trailing comma |
| Format.AmountsAddUp | crates/still_shaken/src/format.rs:18-40 | the greedy amounts add back up to the input, each below the next unit up |
| Format.RelativeReadsBack | crates/still_shaken/src/lib.rs:33-68 | reading the phrase back gives the seconds it was made from |
| Format.PluralRule | crates/still_shaken/src/format.rs:31-35 | a unit is plural exactly when its count is above one |
| Format.RelativeEmpty | crates/still_shaken/src/format.rs:29-52 | the phrase is empty exactly for zero seconds |
| Format.RelativeMinute | crates/still_shaken/src/lib.rs:33-68 | 61 seconds is "1 minute and 1 second" |
| Format.RelativeAllUnits | crates/still_shaken/src/format.rs:42-52 | 90061 seconds is "1 day, 1 hour, 1 minute and 1 second" |
| Util.LastBoundary | crates/still_shaken/src/util.rs:19-29 | the search finds the largest character boundary in `1..=hi`, or reports that there is none |
| Util.ShrinkString | crates/still_shaken/src/util.rs:14-32 | the loop of `shrink_string` computes the specified result |
| Util.ShrinkPrefix | crates/still_shaken/src/util.rs:14-32 | the result is always a prefix of the input that ends on a character boundary |
| Util.ShrinkShort | crates/still_shaken/src/util.rs:15-17 | a string of at most `max` characters comes back unchanged |
| Util.ShrinkLong | crates/still_shaken/src/lib.rs:114-126 | a longer string is cut at the largest boundary below `max` bytes, or comes back whole when there is none |
| Util.ShrinkAsciiStart | crates/still_shaken/src/util.rs:19-29 | a string starting with an ASCII character is always cut below `max` bytes |
| Util.ShrinkTiny | crates/still_shaken/src/util.rs:23 | with `max` at most 1 the whole string comes back |
| Util.ShrinkHello | crates/still_shaken/src/lib.rs:109-127 | `hello` with `max` 3 is `he` |
| Util.ShrinkWideKept | crates/still_shaken/src/util.rs:23-31 | three two-byte characters with `max` 2 come back whole |
| Util.InspectErr | crates/still_shaken/src/util.rs:5-11 | the result passes through unchanged; the callback sees it exactly when it is an error |
| Cmds.SplitN3 | crates/still_shaken/src/bot/cmd.rs:17-20 | `splitn(3, …)` gives one to three pieces |
| Cmds.SplitN3Glue | crates/still_shaken/src/bot/cmd.rs:17-20 | the pieces glued back with the separators found give the input; only the last piece may hold whitespace |
| Cmds.SplitN3Pieces | crates/still_shaken/src/bot/cmd.rs:17-20 | head, argument and body are split off at the first two whitespace characters |
| Cmds.Arg | crates/still_shaken/src/bot/cmd.rs:23-27 | an argument of just `!` is dropped; any other loses at most one leading `!` |
| Cmds.Parse | crates/still_shaken/src/bot/cmd.rs:10-31 | a command exactly when the line starts with `!` and is longer than that |
| Cmds.ParseThree | crates/still_shaken/src/bot/cmd.rs:17-28 | `!head arg body` parses to those three parts, the body unsplit |
| Cmds.ParseBangArg | crates/still_shaken/src/bot/cmd.rs:23-27 | an argument written `!a` is read as `a`, and a lone `!` as none |
| Cmds.ParseHeadOnly | crates/still_shaken/src/bot/cmd.rs:13-22 | `!head` parses to the head alone; an empty head is no command |
| Cmds.ParseHead | crates/still_shaken/src/bot/cmd.rs:17-22 | the head is the text after exactly one `!` up to the first whitespace |
| Cmds.ParseEmptyHead | crates/still_shaken/src/bot/cmd.rs:17-22 | `! ping` parses with an empty head and `ping` as its argument |
| Tags.Body | crates/still_shaken/src/bot/test.rs:276-279 | the tag text holds no space and does not start with `@` |
| Tags.TagsBuilder.constructor | crates/still_shaken/src/bot/test.rs:264-267 | a new builder holds no tags |
| Tags.TagsBuilder.Add | crates/still_shaken/src/bot/test.rs:270-273 | `add` inserts or overwrites one key and keeps the others |
| Tags.TagsBuilder.MergeWith | crates/still_shaken/src/bot/test.rs:275-291 | `merge_with` lays the pairs read from the line over the tags, in order |
| Tags.TagsBuilder.Build | crates/still_shaken/src/bot/test.rs:293-317 | `build` computes the specified rendering for the given order |
| Tags.RenderEmpty | crates/still_shaken/src/bot/test.rs:293-317 | the rendering is empty exactly when there are no tags |
| Tags.RenderSnoc | crates/still_shaken/src/bot/test.rs:303-316 | the first entry follows `@` and each later one follows `;` |
| Tags.MergeBuilt | crates/still_shaken/src/bot/test.rs:89-96 | merging a rendered map lays exactly that map over the builder's tags |
| Tags.MergeBuiltFresh | crates/still_shaken/src/bot/test.rs:275-317 | merging a rendered map into an empty builder gives the map back |
| Tags.MergeNothing | crates/still_shaken/src/bot/test.rs:276-289 | a line with empty tag text adds nothing |
| Tags.ExtendKeeps | crates/still_shaken/src/bot/test.rs:289 | a key no pair names keeps its value |
| Tags.ExtendLastWins | crates/still_shaken/src/bot/test.rs:289 | the last pair naming a key decides its value |
| Tags.PairOfEntry | crates/still_shaken/src/bot/test.rs:283-286 | `k=v` reads as `(k, v)` |
| Tags.PairOfExtra | crates/still_shaken/src/bot/test.rs:283-286 | `k=v=w` reads as `(k, v)` |
| Tags.PairOfFlag | crates/still_shaken/src/bot/test.rs:283-286 | a piece without `=` is skipped |
| Tags.SplitEntries | crates/still_shaken/src/bot/test.rs:281-282 | splitting the rendered entries at `;` gives them back |
| Tags.PairsOfEntries | crates/still_shaken/src/bot/test.rs:281-287 | reading the rendered entries gives the map's pairs in order |
| States.State.constructor | crates/still_shaken/src/bot/state.rs:6-9 | a new state is empty |
| States.State.Insert | crates/still_shaken/src/bot/state.rs:29-38 | `insert` stores the value and reports an error when one was already there |
| States.State.Remove | crates/still_shaken/src/bot/state.rs:19-27 | `remove` drops the value and reports an error when there was none |
| States.State.Get | crates/still_shaken/src/bot/state.rs:40-48 | `get` finds the stored value or reports it missing |
| States.State.GetMut | crates/still_shaken/src/bot/state.rs:50-58 | a write through `get_mut` changes the stored value, or reports it missing |
| States.InsertStores | crates/still_shaken/src/bot/state.rs:29-37 | `insert` succeeds exactly when nothing was stored, and then the value is there |
| States.InsertOverwrites | crates/still_shaken/src/bot/state.rs:33-35 | an `insert` that reports an error has still replaced the old value |
| States.RemoveClears | crates/still_shaken/src/bot/state.rs:19-27 | `remove` fails exactly when nothing was stored, and afterwards nothing is |
| States.OthersUntouched | crates/still_shaken/src/bot/state.rs:19-58 | every operation leaves values of other types as they were |
| States.InsertRemove | crates/still_shaken/src/bot/state.rs:19-38 | inserting a new value and removing it restores the state |
| States.LastInsertWins | crates/still_shaken/src/bot/state.rs:29-48 | `get` returns the last value inserted |
| States.UpdateFound | crates/still_shaken/src/bot/state.rs:40-58 | `get_mut` reaches exactly the values `get` finds |
| Dispatch.GetNonEmpty | crates/still_shaken/src/bot/command_dispatch.rs:39-45 | none exactly when the key is missing or its value is empty; otherwise the value |
| Dispatch.FirstFoundHits | crates/still_shaken/src/bot/command_dispatch.rs:154-183 | the entry chosen finds its arguments, and none before it does |
| Dispatch.FirstFoundNone | crates/still_shaken/src/bot/command_dispatch.rs:154-183 | with no entry chosen, no entry finds its arguments |
| Dispatch.CommandDispatch.constructor | crates/still_shaken/src/bot/command_dispatch.rs:114-117 | a new table is empty |
| Dispatch.CommandDispatch.Add | crates/still_shaken/src/bot/command_dispatch.rs:120-128 | `add` puts the command and handler into the table |
| Dispatch.CommandDispatch.AddStored | crates/still_shaken/src/bot/command_dispatch.rs:139-144 | `add_stored` puts the stored command in as `add` does |
| Dispatch.CommandDispatch.Call | crates/still_shaken/src/bot/command_dispatch.rs:154-183 | the loop of `call` computes the specified selection for the given order |
| Dispatch.SelectRule | crates/still_shaken/src/bot/command_dispatch.rs:157-179 | entries before the first match that lack a required argument reply with their help line; the first match runs its handler with its bindings, or is denied |
| Dispatch.AddedReplaces | crates/still_shaken/src/bot/command_dispatch.rs:120-128 | re-adding an equal command keeps the first command under that help line but takes the new handler |
| Dispatch.NothingFound | crates/still_shaken/src/bot/command_dispatch.rs:182 | when no command matches, `call` ends with no output |
| Dispatch.DeniedRunsNothing | crates/still_shaken/src/bot/command_dispatch.rs:166-170 | a sender without the level is denied and no handler runs |
| Dispatch.MaybeUnbound | crates/still_shaken/src/bot/command_dispatch.rs:249-253 | `!maybe` reaches the handler of `!maybe <something?>` with `something` unbound |
| Help.FoldJoin | crates/still_shaken/src/modules/help.rs:59-71 | the fold is the names, each after `!`, joined by `", "` |
| Help.FormatCommandsJoin | crates/still_shaken/src/modules/help.rs:56-74 | the listing names the built-ins and then the custom commands, in order |
| Help.ListingStartsWithHelp | crates/still_shaken/src/modules/help.rs:12-21 | the listing starts with the help command itself |
| Help.FindBuiltin | crates/still_shaken/src/modules/help.rs:78-79 | the first built-in with that name, or none has it |
| Help.FindCustom | crates/still_shaken/src/modules/help.rs:81-85 | a custom command with that name, or none has it |
| Help.LookupBuiltinWins | crates/still_shaken/src/modules/help.rs:76-80 | a built-in with that name answers with its help text, whatever the custom commands are |
| Help.LookupCustom | crates/still_shaken/src/modules/help.rs:81-88 | otherwise a custom command with that name answers with its body |
| Help.LookupUnknown | crates/still_shaken/src/modules/help.rs:86-88 | with no command of that name the reply says it is unknown, quoting the argument |
| Help.LookupLeaders | crates/still_shaken/src/modules/help.rs:77 | leading `!`s do not change which command is found |
| Help.Handle | crates/still_shaken/src/modules/help.rs:42-54 | with a `command` argument the lookup is replied; otherwise the listing is said |
| ChannelStore.Upsert | crates/still_shaken/src/modules/responses.rs:189-194 | after the store the channel maps the name to the body |
| ChannelStore.Without | crates/still_shaken/src/modules/responses.rs:215-217 | after the removal the channel has no such name |
| ChannelStore.Stored | crates/still_shaken/src/modules/responses.rs:50-56 | the lookup finds a body exactly when the channel has that name |
| ChannelStore.UpsertStores | crates/still_shaken/src/modules/responses.rs:187-194 | the name maps to the body, and every other channel and name is unchanged |
| ChannelStore.UpdateTemplateRule | crates/still_shaken/src/modules/responses.rs:165-198 | an absent body or one starting with `.` or `/` stores nothing and says why; any other is stored and echoed |
| ChannelStore.AddExisting | crates/still_shaken/src/modules/responses.rs:79-83 | `add` of an existing name replies "already exists" and changes nothing |
| ChannelStore.EditRule | crates/still_shaken/src/modules/responses.rs:94-100 | `edit` of a missing name replies "does not exist" and changes nothing; otherwise it is `update_template` |
| ChannelStore.RemoveClears | crates/still_shaken/src/modules/commands.rs:137-146 | after either `remove` the name is gone and everything else is as it was |
| ChannelStore.RemoveReplies | crates/still_shaken/src/bot/modules/commands.rs:80-96 | the synchronous `remove` says "removed" exactly when the name was there |
| ChannelStore.RemoveAsWrittenInverted | crates/still_shaken/src/modules/responses.rs:110-119 | the asynchronous `remove` says "does not exist" after a removal and "removed" when nothing was there |
| ChannelStore.RemoveInvertedExample | crates/still_shaken/src/modules/responses.rs:107-122 | removing an existing `hi` from `#c` answers "'hi' does not exist" |
| ChannelStore.AddRemove | crates/still_shaken/src/modules/responses.rs:75-122 | adding a new name and removing it gives the store back, apart from an empty channel the add created |
| ChannelStore.OnlyTheirChannel | crates/still_shaken/src/modules/responses.rs:207-217 | `add`, `edit` and `remove` change nothing outside their own channel |
| ChannelResponses.Responses.constructor | crates/still_shaken/src/modules/responses.rs:126-141 | the store starts as the saved file holds it |
| ChannelResponses.Responses.UpdateTemplate | crates/still_shaken/src/modules/responses.rs:165-198 | the method is the store rule for `update_template` |
| ChannelResponses.Responses.Set | crates/still_shaken/src/modules/responses.rs:66-73 | `set` is always `update_template` |
| ChannelResponses.Responses.Add | crates/still_shaken/src/modules/commands.rs:98-113 | the method is the store rule for `add` |
| ChannelResponses.Responses.Edit | crates/still_shaken/src/modules/commands.rs:115-132 | the method is the store rule for `edit` |
| ChannelResponses.Responses.Remove | crates/still_shaken/src/modules/responses.rs:107-122 | the method removes the name from the channel and gives the reply as this module words it ("does not exist" after a removal) |
| ChannelResponses.Responses.Handle | crates/still_shaken/src/modules/responses.rs:37-64 | `handle` says the stored template applied to the sender and channel, or returns the parse error |
| ChannelResponses.Responses.HandleUnwrapping | crates/still_shaken/src/modules/commands.rs:60-87 | the copy in modules/commands.rs panics instead on a body that does not parse |
| ChannelResponses.GetCmdOf | crates/still_shaken/src/modules/responses.rs:38-45 | `!name` followed by whitespace or nothing names `name`, however many `!`s lead |
| ChannelResponses.TrimLeaders | crates/still_shaken/src/modules/commands.rs:61-68 | stripping the leading `!`s leaves the text after them |
| ChannelResponses.PlainLinesIgnored | crates/still_shaken/src/modules/responses.rs:38-45 | a line without the leader is never answered |
| ChannelResponses.SetThenCall | crates/still_shaken/src/modules/responses.rs:50-73 | after `!set` stores a body, `!name` answers with it applied |
| ChannelResponses.RemoveThenSilent | crates/still_shaken/src/modules/responses.rs:50-56 | after `remove` the name is no longer answered in that channel |
| ChannelResponses.HandleCopies | crates/still_shaken/src/modules/commands.rs:81-86 | the two `handle` copies agree where the template parses; elsewhere one returns the error and the other panics |
| BotCommandStore.Commands.constructor | crates/still_shaken/src/bot/modules/commands.rs:34-50 | the store starts as the saved file holds it |
| BotCommandStore.Commands.UpdateTemplate | crates/still_shaken/src/bot/modules/commands.rs:138-169 | the method is the store rule for `update_template` |
| BotCommandStore.Commands.Handle | crates/still_shaken/src/bot/modules/commands.rs:52-115 | `handle` computes the specified new store and output |
| BotCommandStore.OnlyElevatedChange | crates/still_shaken/src/bot/modules/commands.rs:58-99 | nobody but the broadcaster and moderators changes the store |
| BotCommandStore.OtherChannelsKept | crates/still_shaken/src/bot/commands.rs:108-168 | a line changes at most the channel it was sent in |
| BotCommandStore.ModeratorAdds | crates/still_shaken/src/bot/modules/commands.rs:61-69 | `!add name body` from a moderator is the store's `add` with that body |
| BotCommandStore.AddArg | crates/still_shaken/src/bot/commands.rs:117-126 | `!add name body` reads as the add command with that name and body |
| BotCommandStore.EmptyBodyStored | crates/still_shaken/src/bot/commands.rs:68-106 | `!add name ` with nothing after the space stores an empty body |
| BotCommandStore.CallAnswers | crates/still_shaken/src/bot/modules/commands.rs:101-114 | `!name` is answered with the stored template, whoever sends it |
| BotCommandStore.EmptyEnvSaysBody | crates/still_shaken/src/bot/commands.rs:160-167 | the older copy applies an empty environment, so it says the stored body as written |
| BotCommandStore.RemoveThenSilent | crates/still_shaken/src/bot/commands.rs:138-156 | after a moderator's `!remove name`, `!name` gets no answer in that channel |
| BotCommandStore.RemoveArg | crates/still_shaken/src/bot/modules/commands.rs:80-82 | `!remove name` reads as the remove command with that name |
| Crates.FixupDescription | crates/still_shaken/src/modules/crates.rs:61-72 | the output keeps what it had, then `" | "` and the joined description cut to 400 bytes |
| Crates.JoinLinesDropsBlank | crates/still_shaken/src/bot/crates.rs:53-64 | leading blank lines vanish, and the other lines are joined with one space |
| Crates.JoinLinesPlain | crates/still_shaken/src/modules/crates.rs:61-72 | with no blank line, the lines are joined with single spaces |
| Crates.LinesSingle | crates/still_shaken/src/modules/crates.rs:61-72 | a description of one line is that line |
| Crates.LinesCrLf | crates/still_shaken/src/bot/crates.rs:53-64 | a line ended by `\r\n` is the text before them |
| Crates.LinesUnbroken | crates/still_shaken/src/modules/crates.rs:61-72 | no line holds a line break |
| Crates.Handle | crates/still_shaken/src/modules/crates.rs:19-59 | `handle` computes the specified lines for the lookup's outcome |
| Crates.HeadlineParts | crates/still_shaken/src/modules/crates.rs:40-44 | the headline is `name = version`, then `" | "` and a prefix of the description, the whole of it when short enough |
| Crates.AnswerFound | crates/still_shaken/src/bot/crates.rs:39-48 | for a crate found: the headline, then the repository line when there is one, then the documentation line when asked for |
| Crates.QueryOf | crates/still_shaken/src/bot/crates.rs:16-21 | the query is everything after the command word and one whitespace character, and may be empty |
| Crates.QueryFrom | crates/still_shaken/src/bot/crates.rs:16-21 | a query only ever comes after a command word and a whitespace character |
| Crates.NoQuery | crates/still_shaken/src/bot/crates.rs:19 | a command word alone asks for nothing |
| Crates.CrateHelpLine | crates/still_shaken/src/modules/crates.rs:9-16 | each registration line is `!name <crate>` |
| Crates.CrateCommand | crates/still_shaken/src/bot/command.rs:53-61 | `Command::example("!name <crate>").build()` of the bot's own `Command` succeeds with the command `name`, one required `crate` slot, and the help line kept as written, `!` included |
| Crates.RegisteredCommands | crates/still_shaken/src/modules/crates.rs:9-16 | `!crate <crate>`, `!crates <crate>` and `!lookup <crate>` each build to the command of that name with one required `crate` slot, and each keeps its line as its help |
| Crates.CrateExample | crates/still_shaken/src/bot/command_dispatch.rs:158-162 | a registered crates command reached by `!name` alone is answered with its help line `!name <crate>`, and nothing runs |
| Crates.CrateQueryBound | crates/still_shaken/src/modules/crates.rs:19-21 | `!name query` with a one-word query binds `crate` to the query for the handler, which runs when the sender's level is met and is refused otherwise |

## Left out

- Chat transport, the async runtime, the responder, threads and `Mutex`es are not modelled. A handler's effect is its new state plus what it would send.
- Persistence is not modelled: `sync_commands`, `load_saved` and the file reading in the store modules' `new`, plus `persist.rs` and `config.rs`. The saved store is a constructor parameter.
- The HTTP lookup of crates.io, the Markov `shaken` modules, `TestRunner` and the `DontCareSigil` downcast are not modelled.
- Rust's `HashMap` iteration order is not modelled. Dispatch and tag rendering take the order as a parameter, and every property holds for every order.
- Badge parsing and the `is_broadcaster`/`is_moderator` calls belong to the chat library. They are a predicate and two booleans.
- `char::is_alphanumeric` is modelled for ASCII letters and digits only. Keys with other Unicode letters are refused by the model but accepted by the code.
- The template environment is a map from string to string, not the `DisplayFn` trait objects. The error `source()` chain is not modelled.
- `StoredCommand::new`, `elevated` and `build_with`, `add_many_stored`, `get_parsed` (`FromStr` on a binding) and the plain accessors are not modelled. They are built from `build`, `elevated` and `add`.
- `SimpleTemplate::new`, `name` and `body` are not modelled, and neither is `shrink_to_fit`.
- TemplateLaws.KeysOfDoc: holds for templates whose text pieces are free text, where every `$` is followed inside its own piece by something other than `{`. A text piece ending in `$` just before a `{` of the next piece is not covered. Keys must hold no `$`, `{` or `}`. Other texts are covered only by `NestedRefused`, `UnclosedRefused` and `ReopenRefused`.
- TemplateLaws.SubstituteDoc: holds on the same templates, and only when every value is free text. A value that spells a placeholder is filled again by a later key (`Resubstituted`), so the piece-wise meaning does not hold for it.
- TemplateLaws.ApplyDoc: the same restriction to free text and free values as `SubstituteDoc`.
- TemplateLaws.ReplaceDoc: holds for templates of free text and free keys; the value is arbitrary.
- BotTemplates.ApplyDoc: the same restriction to free text and free values as `TemplateLaws.SubstituteDoc`.
- `Tags.TagsBuilder.MergeWith` requires a space in the line; the code panics on its `unwrap` when there is none.
- `BotTemplates.Apply` requires a body that parses; the bot's `SimpleTemplate::apply` panics on its `unwrap` otherwise. Stored templates are not checked this way: for them the store modules model the panic as the outcome `Panics`.
- `Dispatch.Index` requires the key to be present, since indexing a missing key panics. `Dispatch.Contains` is key membership.
- `CommandError.Message`'s contract pins down only the `DuplicateKey` text and the fact that different errors read differently. The other five fixed texts are in its body.
- `States.State.Contains` is map membership, stated by its body.
- Integer widths do not matter here: seconds are `u64` and never overflow in these formulas, so they are `nat`.

## Findings

| source | as written | input that shows it | evidently intended | confidence | as-written member | corrected member |
|---|---|---|---|---|---|---|
| crates/still_shaken/src/modules/responses.rs:110-119 (also crates/still_shaken/src/modules/commands.rs:137-146) | after a successful removal the reply is "'x' does not exist", and "removed 'x'" when there was nothing to remove | removing `hi` from channel `#c` that holds `hi` answers "'hi' does not exist" | the wording of the synchronous copies (crates/still_shaken/src/bot/modules/commands.rs:80-96): "removed" exactly when the name was there | not executed | ChannelStore.RemoveAsWritten, with ChannelStore.RemoveAsWrittenInverted and ChannelStore.RemoveInvertedExample | ChannelStore.Remove, with ChannelStore.RemoveReplies, used by BotCommandStore.Handled and BotCommandStore.Commands.Handle |
