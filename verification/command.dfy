/**
 * A chat command declared by a help line such as `!hello <name> <other?> <rest...>`
 * (shaken_commands/src/command.rs). `Build` turns the help line into a name and
 * a schema of argument slots; `Extract` matches a chat message against it.
 */
module Commands {
  import opened Wrappers
  import opened Text
  import opened CommandTypes
  import opened CommandError

  /** The prefix that marks a chat line as a command. */
  const Leader: char := '!'

  datatype Command = Command(command: string, help: string, args: seq<Arg>, elevated: bool)

  /** `Command::example`: an unparsed command whose help is the input without its leaders. */
  function Example(input: string): Command {
    Command("", TrimStartMatches(input, Leader), [], false)
  }

  /** `Command::elevated`: the same command, marked as needing privileges. */
  function Elevated(c: Command): (r: Command)
    ensures r.elevated && r.command == c.command && r.help == c.help && r.args == c.args
  {
    c.(elevated := true)
  }

  /** `Display`: a command prints as its help line. */
  function Display(c: Command): string {
    c.help
  }

  /** `PartialEq`: two commands are equal when their help lines are. */
  predicate SameCommand(a: Command, b: Command) {
    a.help == b.help
  }

  /** `Hash`: only the name is hashed. */
  function HashKey(c: Command): string {
    c.command
  }

  /**
   * Which words of the help line are slots, and what their key text is.
   * `EitherBracket` is `trim_args` of command.rs (a word that loses a leading
   * `<` or a trailing `>`); `BothBrackets` is the test of the older copies (a word
   * that starts with `<` and ends with `>`).
   */
  datatype SlotRule = EitherBracket | BothBrackets

  /** `trim_args`: strips `<`s and `>`s; a slot when anything was stripped. */
  function TrimArgs(word: string): Option<string> {
    var next := TrimEndMatches(TrimStartMatches(word, '<'), ">");
    if |next| != |word| then Some(next) else None
  }

  function SlotText(rule: SlotRule, word: string): Option<string> {
    match rule
    case EitherBracket => TrimArgs(word)
    case BothBrackets =>
      if StartsWith(word, "<") && EndsWith(word, ">")
      then Some(TrimEndMatches(TrimStartMatches(word, '<'), ">"))
      else None
  }

  /** A key ending in `?` is optional, one ending in `...` flexible, any other required. */
  function Classify(key: string): Arg
  {
    if EndsWith(key, "?") then Arg(TrimEndMatches(key, "?"), Optional)
    else if EndsWith(key, "...") then Arg(TrimEndMatches(key, "..."), Flexible)
    else Arg(key, ArgKind.Required)
  }

  /** The suffix decides the kind; every copy of the suffix is dropped from the key. */
  lemma ClassifyKinds(key: string)
    ensures var a := Classify(key);
      (a.ty == Optional <==> EndsWith(key, "?"))
      && (a.ty == Flexible <==> !EndsWith(key, "?") && EndsWith(key, "..."))
      && StartsWith(key, a.data)
      && (a.ty == Optional ==> !EndsWith(a.data, "?"))
      && (a.ty == Flexible ==> !EndsWith(a.data, "..."))
      && (a.ty == ArgKind.Required ==> a.data == key)
  {
    TrimEndMatchesPrefix(key, "?");
    TrimEndMatchesPrefix(key, "...");
  }

  /** The slots the remaining words of a help line declare, in order. */
  function Slots(rule: SlotRule, words: seq<string>): seq<Arg> {
    if words == [] then []
    else
      (match SlotText(rule, words[0]) case None => [] case Some(k) => [Classify(k)])
      + Slots(rule, words[1..])
  }

  /**
   * The checks `parse` makes before appending slot `a` to the slots accepted so
   * far, in the order it makes them.
   */
  function Admit(args: seq<Arg>, a: Arg): Option<Error> {
    if a.data in KeySet(args) then Some(DuplicateKey(a.data))
    else if !AllAlphanumeric(a.data) then Some(InvalidCharacters)
    else if a.ty == ArgKind.Required && HasKind(args, {Optional, Flexible}) then Some(RequiredInTail)
    else if a.ty == Optional && HasKind(args, {Flexible}) then Some(OptionalAfterFlex)
    else if a.ty == Flexible && HasKind(args, {Flexible}) then Some(MultipleFlexible)
    else None
  }

  /** Admits the slots one by one, stopping at the first one that is refused. */
  function Admitted(slots: seq<Arg>, acc: seq<Arg>): Result<seq<Arg>, Error>
    decreases |slots|
  {
    if slots == [] then Ok(acc)
    else match Admit(acc, slots[0])
      case Some(e) => Err(e)
      case None => Admitted(slots[1..], acc + [slots[0]])
  }

  /**
   * What a valid schema looks like: distinct alphanumeric keys, kinds in
   * non-decreasing order, and a flexible slot only at the very end.
   */
  predicate WellFormed(args: seq<Arg>) {
    DistinctKeys(args) && AlphanumericKeys(args) && Ordered(args) && FlexibleLast(args)
  }

  predicate DistinctKeys(args: seq<Arg>) {
    forall i, j :: 0 <= i < j < |args| ==> args[i].data != args[j].data
  }

  predicate AlphanumericKeys(args: seq<Arg>) {
    forall i :: 0 <= i < |args| ==> AllAlphanumeric(args[i].data)
  }

  predicate Ordered(args: seq<Arg>) {
    forall i, j :: 0 <= i < j < |args| ==> Rank(args[i].ty) <= Rank(args[j].ty)
  }

  predicate FlexibleLast(args: seq<Arg>) {
    forall i :: 0 <= i < |args| && args[i].ty == Flexible ==> i == |args| - 1
  }

  /** The words of a help line: leaders stripped, split at each space. */
  function Words(help: string): seq<string> {
    SplitTerminator(TrimStartMatches(help, Leader), ' ')
  }

  /** The name and slots a help line declares, or why it declares none. */
  function Schema(help: string, rule: SlotRule): Result<(string, seq<Arg>), Error> {
    var words := Words(help);
    if words == [] then Err(NoCommand)
    else match Admitted(Slots(rule, words[1..]), [])
      case Err(e) => Err(e)
      case Ok(args) => Ok((words[0], args))
  }

  /** The command with the name and slots its help line declares. */
  function Built(c: Command, rule: SlotRule): Result<Command, Error> {
    match Schema(c.help, rule)
    case Err(e) => Err(e)
    case Ok(schema) => Ok(c.(command := schema.0, args := schema.1))
  }

  /** `Command::parse` (reached through `build`), with the slot rule of the copy. */
  method Parse(c: Command, rule: SlotRule) returns (r: Result<Command, Error>)
    ensures r == Built(c, rule)
  {
    var words := Words(c.help);
    if words == [] {
      return Err(NoCommand);
    }
    var args := ParseSlots(rule, words);
    match args {
      case Err(e) => return Err(e);
      case Ok(args) => return Ok(c.(command := words[0], args := args));
    }
  }

  /** The slot loop of `parse`, over the words after the name. */
  method ParseSlots(rule: SlotRule, words: seq<string>) returns (r: Result<seq<Arg>, Error>)
    requires words != []
    ensures r == Admitted(Slots(rule, words[1..]), [])
  {
    var seen: set<string> := {};
    var args: seq<Arg> := [];
    var i := 1;
    AdmittedFromSlots(rule, words, 1, []);
    ghost var goal := AdmittedFrom(rule, words, 1, []);
    while i < |words|
      invariant 1 <= i <= |words|
      invariant seen == KeySet(args)
      invariant goal == AdmittedFrom(rule, words, i, args)
      decreases |words| - i
    {
      var text := SlotText(rule, words[i]);
      if text.Some? {
        var a := Classify(text.value);
        var refused := Check(args, seen, a);
        if refused.Some? {
          return Err(refused.value);
        }
        seen := seen + {a.data};
        KeySetSnoc(args, a);
        args := args + [a];
      }
      i := i + 1;
    }
    return Ok(args);
  }

  /** The checks `parse` makes on one slot, in the order it makes them. */
  method Check(args: seq<Arg>, seen: set<string>, a: Arg) returns (refused: Option<Error>)
    requires seen == KeySet(args)
    ensures refused == Admit(args, a)
  {
    if a.data in seen {
      return Some(DuplicateKey(a.data));
    }
    if !AllAlphanumeric(a.data) {
      return Some(InvalidCharacters);
    }
    if a.ty == ArgKind.Required && HasKind(args, {Optional, Flexible}) {
      return Some(RequiredInTail);
    }
    if a.ty == Optional && HasKind(args, {Flexible}) {
      return Some(OptionalAfterFlex);
    }
    if a.ty == Flexible && HasKind(args, {Flexible}) {
      return Some(MultipleFlexible);
    }
    return None;
  }

  /** Admits the slots of the words from position `i` on, one word at a time. */
  function AdmittedFrom(rule: SlotRule, words: seq<string>, i: nat, args: seq<Arg>): Result<seq<Arg>, Error>
    decreases |words| - i
  {
    if i >= |words| then Ok(args)
    else match SlotText(rule, words[i])
      case None => AdmittedFrom(rule, words, i + 1, args)
      case Some(k) =>
        match Admit(args, Classify(k))
        case Some(e) => Err(e)
        case None => AdmittedFrom(rule, words, i + 1, args + [Classify(k)])
  }

  /** Word by word, the same as admitting the slots of those words. */
  lemma {:induction false} AdmittedFromSlots(rule: SlotRule, words: seq<string>, i: nat, args: seq<Arg>)
    requires i <= |words|
    ensures AdmittedFrom(rule, words, i, args) == Admitted(Slots(rule, words[i..]), args)
    decreases |words| - i
  {
    if i == |words| {
      assert words[i..] == [];
    } else {
      AdmittedStep(rule, words, i, args);
      match SlotText(rule, words[i]) {
        case None =>
          AdmittedFromSlots(rule, words, i + 1, args);
        case Some(k) =>
          if Admit(args, Classify(k)).None? {
            AdmittedFromSlots(rule, words, i + 1, args + [Classify(k)]);
          }
      }
    }
  }

  /** Admitting the slots from word `i` on is admitting word `i`'s slot, if any, then the rest. */
  lemma AdmittedStep(rule: SlotRule, words: seq<string>, i: nat, args: seq<Arg>)
    requires i < |words|
    ensures Admitted(Slots(rule, words[i..]), args) ==
      match SlotText(rule, words[i])
      case None => Admitted(Slots(rule, words[i + 1..]), args)
      case Some(k) =>
        match Admit(args, Classify(k))
        case Some(e) => Err(e)
        case None => Admitted(Slots(rule, words[i + 1..]), args + [Classify(k)])
  {
    SlotsStep(rule, words, i);
    var rest := Slots(rule, words[i + 1..]);
    match SlotText(rule, words[i]) {
      case None =>
        assert Slots(rule, words[i..]) == rest;
      case Some(k) =>
        assert Slots(rule, words[i..]) == [Classify(k)] + rest;
        AdmittedCons(Classify(k), rest, args);
    }
  }

  lemma AdmittedCons(a: Arg, rest: seq<Arg>, acc: seq<Arg>)
    ensures Admitted([a] + rest, acc) ==
      match Admit(acc, a) case Some(e) => Err(e) case None => Admitted(rest, acc + [a])
  {
    assert ([a] + rest)[0] == a && ([a] + rest)[1..] == rest;
  }

  lemma KeySetSnoc(args: seq<Arg>, a: Arg)
    ensures KeySet(args + [a]) == KeySet(args) + {a.data}
  {
    assert forall k :: 0 <= k < |args| ==> (args + [a])[k] == args[k];
    assert (args + [a])[|args|] == a;
  }

  lemma SlotsStep(rule: SlotRule, words: seq<string>, i: nat)
    requires i < |words|
    ensures Slots(rule, words[i..]) ==
      (match SlotText(rule, words[i]) case None => [] case Some(k) => [Classify(k)])
      + Slots(rule, words[i + 1..])
  {
    assert words[i..][0] == words[i] && words[i..][1..] == words[i + 1..];
  }

  /** `Command::build` of command.rs. */
  method Build(c: Command) returns (r: Result<Command, Error>)
    ensures r == Built(c, EitherBracket)
  {
    r := Parse(c, EitherBracket);
  }

  // ---------------------------------------------------------------- extraction

  /**
   * The loop of `extract`: each slot takes the text up to the next space; a
   * flexible slot, or any slot when no space is left, takes the rest (if the
   * rest is non-empty) and ends the walk.
   */
  function Walk(args: seq<Arg>, input: string): (w: seq<(Arg, string)>)
    ensures |w| <= |args|
    decreases |args|
  {
    if args == [] then []
    else
      var a := args[0];
      var next := Find(input, ' ');
      if a.ty == Flexible || next.None? then
        if input == [] then [] else [(a, input)]
      else
        [(a, input[..next.value])] + Walk(args[1..], input[next.value + 1..])
  }

  /** Each bound value goes with the slot at the same position: the walked slots are a prefix of the slots. */
  lemma {:induction false} WalkSlots(args: seq<Arg>, input: string)
    ensures var w := Walk(args, input);
      forall i :: 0 <= i < |w| ==> w[i].0 == args[i]
    decreases |args|
  {
    if args != [] {
      var next := Find(input, ' ');
      if args[0].ty != Flexible && next.Some? {
        var rest := input[next.value + 1..];
        WalkSlots(args[1..], rest);
        var w, w' := Walk(args, input), Walk(args[1..], rest);
        assert w == [(args[0], input[..next.value])] + w';
        assert forall i :: 1 <= i < |w| ==> w[i] == w'[i - 1];
      }
    }
  }

  /** The values a walk binds, joined by single spaces. */
  function Joined(w: seq<(Arg, string)>): string {
    Join(" ", Values(w))
  }

  lemma JoinedCons(a: Arg, v: string, w': seq<(Arg, string)>)
    ensures Joined([(a, v)] + w') == if w' == [] then v else v + " " + Joined(w')
  {
    assert Values([(a, v)] + w') == [v] + Values(w');
    JoinCons(" ", v, Values(w'));
  }

  /** The values the walk binds, joined by single spaces, are a prefix of the input. */
  lemma {:induction false} WalkPrefix(args: seq<Arg>, input: string)
    ensures StartsWith(input, Joined(Walk(args, input)))
    decreases |args|
  {
    if args != [] {
      var next := Find(input, ' ');
      if !(args[0].ty == Flexible || next.None?) {
        var v := input[..next.value];
        var rest := input[next.value + 1..];
        WalkPrefix(args[1..], rest);
        JoinedCons(args[0], v, Walk(args[1..], rest));
        SplitAt(input, next.value);
      } else if input != [] {
        JoinedCons(args[0], input, []);
      }
    }
  }

  /**
   * A flexible slot can only be the last one bound, and then the joined values
   * are the whole input.
   */
  lemma {:induction false} WalkFlexible(args: seq<Arg>, input: string, i: nat)
    requires i < |Walk(args, input)| && args[i].ty == Flexible
    ensures i == |Walk(args, input)| - 1 && Joined(Walk(args, input)) == input
    decreases |args|
  {
    var next := Find(input, ' ');
    if args[0].ty == Flexible || next.None? {
      JoinedCons(args[0], input, []);
    } else {
      var v := input[..next.value];
      var rest := input[next.value + 1..];
      var w' := Walk(args[1..], rest);
      assert i > 0;
      WalkFlexible(args[1..], rest, i - 1);
      JoinedCons(args[0], v, w');
      SplitAt(input, next.value);
    }
  }

  /** A walk that binds fewer slots than there are has used up the input, up to a trailing space. */
  lemma {:induction false} WalkExhausts(args: seq<Arg>, input: string)
    requires |Walk(args, input)| < |args|
    ensures var j := Joined(Walk(args, input));
      input == j || (Walk(args, input) != [] && input == j + " ")
    decreases |args|
  {
    var next := Find(input, ' ');
    if args[0].ty == Flexible || next.None? {
      if input != [] {
        JoinedCons(args[0], input, []);
      }
    } else {
      var v := input[..next.value];
      var rest := input[next.value + 1..];
      var w' := Walk(args[1..], rest);
      WalkExhausts(args[1..], rest);
      JoinedCons(args[0], v, w');
      SplitAt(input, next.value);
      if w' == [] {
        assert input == Joined(Walk(args, input)) + " ";
      } else if rest == Joined(w') {
        assert input == Joined(Walk(args, input));
      } else {
        assert input == (v + " " + Joined(w')) + " ";
      }
    }
  }

  /** A value bound to a required or optional slot holds no space. */
  lemma {:induction false} WalkNoSpace(args: seq<Arg>, input: string, i: nat)
    requires i < |Walk(args, input)| && args[i].ty != Flexible
    ensures ' ' !in Walk(args, input)[i].1
    decreases |args|
  {
    var next := Find(input, ' ');
    if !(args[0].ty == Flexible || next.None?) {
      var n := next.value;
      WalkCons(args, input, n);
      var tail := Walk(args[1..], input[n + 1..]);
      if i > 0 {
        assert Walk(args, input)[i] == tail[i - 1];
        WalkNoSpace(args[1..], input[n + 1..], i - 1);
      } else {
        FindFirst(input, ' ');
        assert Walk(args, input)[0].1 == input[..n];
      }
    } else {
      assert Walk(args, input) == (if input == [] then [] else [(args[0], input)]);
      assert args[0].ty != Flexible;
    }
  }

  lemma WalkNonEmpty(args: seq<Arg>, input: string)
    requires args != [] && input != []
    ensures Walk(args, input) != []
  {
  }

  /** One step of the walk, from slot `i` on. */
  lemma WalkStep(args: seq<Arg>, i: nat, input: string)
    requires i < |args|
    ensures Walk(args[i..], input) ==
      var next := Find(input, ' ');
      if args[i].ty == Flexible || next.None? then
        (if input == [] then [] else [(args[i], input)])
      else
        [(args[i], input[..next.value])] + Walk(args[i + 1..], input[next.value + 1..])
  {
    assert args[i..][0] == args[i] && args[i..][1..] == args[i + 1..];
  }

  lemma BindSnoc(m: map<string, string>, done: seq<(Arg, string)>, p: (Arg, string))
    requires m == Bind(done)
    ensures m[p.0.data := p.1] == Bind(done + [p])
  {
    assert (done + [p])[..|done|] == done;
  }

  /** A slot followed by a space takes the word before it; the walk goes on after the space. */
  lemma WalkNext(walk: seq<(Arg, string)>, done: seq<(Arg, string)>, args: seq<Arg>, i: nat, rest: string)
    requires i < |args| && args[i].ty != Flexible && Find(rest, ' ').Some?
    requires walk == done + Walk(args[i..], rest)
    ensures var n := Find(rest, ' ').value;
      walk == (done + [(args[i], rest[..n])]) + Walk(args[i + 1..], rest[n + 1..])
  {
    var n := Find(rest, ' ').value;
    WalkWord(args, i, rest, n);
    WalkShift(done, (args[i], rest[..n]), Walk(args[i + 1..], rest[n + 1..]));
  }

  lemma WalkWord(args: seq<Arg>, i: nat, rest: string, n: nat)
    requires i < |args| && args[i].ty != Flexible && Find(rest, ' ') == Some(n)
    ensures n < |rest|
    ensures Walk(args[i..], rest) == [(args[i], rest[..n])] + Walk(args[i + 1..], rest[n + 1..])
  {
    var xs := args[i..];
    assert xs[0] == args[i] && xs[1..] == args[i + 1..];
    WalkCons(xs, rest, n);
  }

  lemma WalkCons(xs: seq<Arg>, rest: string, n: nat)
    requires xs != [] && xs[0].ty != Flexible && Find(rest, ' ') == Some(n)
    ensures Walk(xs, rest) == [(xs[0], rest[..n])] + Walk(xs[1..], rest[n + 1..])
  {
  }

  lemma WalkShift(done: seq<(Arg, string)>, p: (Arg, string), tail: seq<(Arg, string)>)
    ensures done + ([p] + tail) == (done + [p]) + tail
  {
  }

  /** A flexible slot, or one with no space after it, takes the rest of the text and ends the walk. */
  lemma WalkLast(walk: seq<(Arg, string)>, done: seq<(Arg, string)>, args: seq<Arg>, i: nat, rest: string)
    requires i < |args| && (args[i].ty == Flexible || Find(rest, ' ').None?)
    requires walk == done + Walk(args[i..], rest)
    ensures rest == [] ==> walk == done
    ensures rest != [] ==> walk == done + [(args[i], rest)]
  {
    WalkStep(args, i, rest);
    if rest == [] {
      assert done + [] == done;
    }
  }

  /** The state of the loop that fills the bindings: `done` is walked and bound, the rest of the walk starts at slot `i`. */
  ghost predicate Filling(walk: seq<(Arg, string)>, done: seq<(Arg, string)>, m: map<string, string>, args: seq<Arg>, i: nat, rest: string)
    requires i <= |args|
  {
    walk == done + Walk(args[i..], rest) && m == Bind(done)
  }

  lemma FillStart(walk: seq<(Arg, string)>, args: seq<Arg>, input: string)
    requires walk == Walk(args, input)
    ensures Filling(walk, [], map[], args, 0, input)
  {
    assert args[0..] == args;
  }

  /** A slot followed by a space binds the word before it, and the walk goes on after the space. */
  lemma FillNext(walk: seq<(Arg, string)>, done: seq<(Arg, string)>, m: map<string, string>, args: seq<Arg>, i: nat, rest: string, v: string, after: string)
    requires i < |args| && args[i].ty != Flexible && Find(rest, ' ').Some?
    requires v == rest[..Find(rest, ' ').value] && after == rest[Find(rest, ' ').value + 1..]
    requires Filling(walk, done, m, args, i, rest)
    ensures Filling(walk, done + [(args[i], v)], m[args[i].data := v], args, i + 1, after)
  {
    WalkNext(walk, done, args, i, rest);
    BindSnoc(m, done, (args[i], v));
  }

  /** The last slot the walk reaches binds the rest of the text, if any, and the bindings are complete. */
  lemma FillLast(walk: seq<(Arg, string)>, done: seq<(Arg, string)>, m: map<string, string>, args: seq<Arg>, i: nat, rest: string)
    requires i < |args| && (args[i].ty == Flexible || Find(rest, ' ').None?)
    requires Filling(walk, done, m, args, i, rest)
    ensures (if rest == [] then m else m[args[i].data := rest]) == Bind(walk)
  {
    WalkLast(walk, done, args, i, rest);
    if rest != [] {
      BindSnoc(m, done, (args[i], rest));
    }
  }

  /** Once every slot is walked, the bindings are complete. */
  lemma FillDone(walk: seq<(Arg, string)>, done: seq<(Arg, string)>, m: map<string, string>, args: seq<Arg>, rest: string)
    requires Filling(walk, done, m, args, |args|, rest)
    ensures m == Bind(walk)
  {
    assert args[|args|..] == [];
    assert Walk(args[|args|..], rest) == [];
    assert done + [] == done;
  }

  function Values(w: seq<(Arg, string)>): (r: seq<string>)
    ensures |r| == |w| && forall i :: 0 <= i < |w| ==> r[i] == w[i].1
  {
    seq(|w|, i requires 0 <= i < |w| => w[i].1)
  }

  lemma JoinCons(sep: string, x: string, xs: seq<string>)
    ensures Join(sep, [x] + xs) == if xs == [] then x else x + sep + Join(sep, xs)
  {
    if xs != [] {
      assert ([x] + xs)[1..] == xs;
    }
  }

  /** The map the walk fills; a later insertion of a key replaces the value. */
  function Bind(w: seq<(Arg, string)>): map<string, string> {
    if w == [] then map[] else Bind(w[..|w| - 1])[w[|w| - 1].0.data := w[|w| - 1].1]
  }

  /** The bindings have as keys exactly the keys of the walked slots. */
  lemma {:induction false} BindKeys(w: seq<(Arg, string)>)
    ensures Bind(w).Keys == set i | 0 <= i < |w| :: w[i].0.data
    decreases |w|
  {
    if w != [] {
      var w' := w[..|w| - 1];
      BindKeys(w');
      assert forall i :: 0 <= i < |w| - 1 ==> w'[i] == w[i];
    }
  }

  /** The text after the name, with the whitespace before the first argument removed. */
  function Rest(c: Command, input: string): string
    requires StartsWith(TrimStartMatches(input, Leader), c.command)
  {
    TrimStart(TrimStartMatches(input, Leader)[|c.command|..])
  }

  /** What `extract` returns. */
  function Extraction(c: Command, input: string): ExtractResult {
    if !StartsWith(TrimStartMatches(input, Leader), c.command) then NoMatch
    else
      var rest := Rest(c, input);
      if rest == [] && HasKind(c.args, {ArgKind.Required}) then ExtractResult.Required
      else Found(Bind(Walk(c.args, rest)))
  }

  /** `Command::extract`. */
  method Extract(c: Command, input: string) returns (r: ExtractResult)
    ensures r == Extraction(c, input)
  {
    var s := TrimStartMatches(input, Leader);
    if !StartsWith(s, c.command) {
      return NoMatch;
    }
    var rest := TrimStart(s[|c.command|..]);
    if rest == [] && HasKind(c.args, {ArgKind.Required}) {
      return ExtractResult.Required;
    }
    var m := Fill(c.args, rest);
    return Found(m);
  }

  /** The slot loop of `extract`: binds the slots to the words of `input`. */
  method Fill(args: seq<Arg>, input: string) returns (m: map<string, string>)
    ensures m == Bind(Walk(args, input))
  {
    var rest := input;
    ghost var walk := Walk(args, rest);
    ghost var done: seq<(Arg, string)> := [];
    m := map[];
    var i := 0;
    FillStart(walk, args, input);
    while i < |args|
      invariant 0 <= i <= |args|
      invariant Filling(walk, done, m, args, i, rest)
    {
      var a := args[i];
      var next := Find(rest, ' ');
      if a.ty == Flexible || next.None? {
        FillLast(walk, done, m, args, i, rest);
        if rest != [] {
          m := m[a.data := rest];
        }
        return;
      }
      var v := rest[..next.value];
      var after := rest[next.value + 1..];
      FillNext(walk, done, m, args, i, rest, v, after);
      m := m[a.data := v];
      done := done + [(a, v)];
      rest := after;
      i := i + 1;
    }
    FillDone(walk, done, m, args, rest);
  }

  // ---------------------------------------------------------------- properties

  /** `example` keeps the help line minus every leading `!`, and nothing else. */
  lemma ExampleHelp(input: string)
    ensures var c := Example(input);
      c.command == [] && c.args == [] && !c.elevated
      && input[|input| - |c.help|..] == c.help
      && (c.help == [] || c.help[0] != Leader)
      && forall i :: 0 <= i < |input| - |c.help| ==> input[i] == Leader
  {
    TrimStartMatchesSuffix(input, Leader);
  }

  /** Building an example parses the help line it was given, leaders and all. */
  lemma ExampleSchema(input: string, rule: SlotRule)
    ensures Schema(Example(input).help, rule) == Schema(input, rule)
  {
    TrimStartMatchesIdempotent(input, Leader);
  }

  /** `trim_args` makes a word a slot exactly when it starts with `<` or ends with `>`. */
  lemma TrimArgsSlot(word: string)
    ensures TrimArgs(word).Some? <==> StartsWith(word, "<") || EndsWith(word, ">")
  {
    var t := TrimStartMatches(word, '<');
    if StartsWith(word, "<") {
      assert word[0] == '<';
      assert |t| < |word|;
    } else if EndsWith(word, ">") {
      assert t == word;
      assert |TrimEndMatches(word[..|word| - 1], ">")| < |word|;
    } else {
      assert t == word;
    }
  }

  /** Every word the older copies take as a slot, `trim_args` takes as the same slot. */
  lemma SlotRulesAgree(word: string)
    requires SlotText(BothBrackets, word).Some?
    ensures SlotText(EitherBracket, word) == SlotText(BothBrackets, word)
  {
    TrimArgsSlot(word);
    var t := TrimStartMatches(word, '<');
    assert word[0] == '<';
    assert |t| < |word|;
  }

  /** Admitting one more slot keeps a schema well formed exactly when `parse` accepts it. */
  lemma AdmitWellFormed(acc: seq<Arg>, a: Arg)
    requires WellFormed(acc)
    ensures Admit(acc, a) == None <==> WellFormed(acc + [a])
  {
    if Admit(acc, a) == None {
      AdmitAccepts(acc, a);
    } else {
      AdmitRefuses(acc, a);
    }
  }

  lemma AdmitAccepts(acc: seq<Arg>, a: Arg)
    requires WellFormed(acc) && Admit(acc, a) == None
    ensures WellFormed(acc + [a])
  {
    var s := acc + [a];
    assert forall i :: 0 <= i < |acc| ==> s[i] == acc[i];
    assert s[|acc|] == a;
    assert DistinctKeys(s) by {
      assert forall i :: 0 <= i < |acc| ==> acc[i].data in KeySet(acc);
    }
    assert AlphanumericKeys(s);
    HasKindIff(acc, {Optional, Flexible});
    HasKindIff(acc, {Flexible});
    assert forall i :: 0 <= i < |acc| ==> acc[i].ty != Flexible;
    assert Ordered(s) by {
      assert forall i :: 0 <= i < |acc| ==> Rank(acc[i].ty) <= Rank(a.ty);
    }
  }

  lemma AdmitRefuses(acc: seq<Arg>, a: Arg)
    requires WellFormed(acc) && Admit(acc, a) != None
    ensures !WellFormed(acc + [a])
  {
    var s := acc + [a];
    assert forall i :: 0 <= i < |acc| ==> s[i] == acc[i];
    assert s[|acc|] == a;
    HasKindIff(acc, {Optional, Flexible});
    HasKindIff(acc, {Flexible});
  }

  lemma WellFormedPrefix(s: seq<Arg>, k: nat)
    requires WellFormed(s) && k <= |s|
    ensures WellFormed(s[..k])
  {
  }

  /**
   * Admitting a list of slots succeeds exactly when the whole list is well
   * formed, and then yields the slots in declared order.
   */
  lemma {:induction false} AdmittedWellFormed(slots: seq<Arg>, acc: seq<Arg>)
    requires WellFormed(acc)
    ensures Admitted(slots, acc).Ok? <==> WellFormed(acc + slots)
    ensures Admitted(slots, acc).Ok? ==> Admitted(slots, acc).value == acc + slots
    decreases |slots|
  {
    if slots == [] {
      assert acc + slots == acc;
    } else {
      var a := slots[0];
      AdmitWellFormed(acc, a);
      assert acc + slots == (acc + [a]) + slots[1..];
      if Admit(acc, a) == None {
        AdmittedWellFormed(slots[1..], acc + [a]);
      } else if WellFormed(acc + slots) {
        WellFormedPrefix(acc + slots, |acc| + 1);
      }
    }
  }

  /** A refused list names the error of its first slot that breaks the rules. */
  lemma {:induction false} AdmittedRejects(slots: seq<Arg>, acc: seq<Arg>, e: Error) returns (j: nat)
    requires WellFormed(acc)
    requires Admitted(slots, acc) == Err(e)
    ensures j < |slots| && WellFormed(acc + slots[..j]) && Admit(acc + slots[..j], slots[j]) == Some(e)
    decreases |slots|
  {
    var a := slots[0];
    if Admit(acc, a) == None {
      AdmitWellFormed(acc, a);
      var k := AdmittedRejects(slots[1..], acc + [a], e);
      j := k + 1;
      assert acc + [a] + slots[1..][..k] == acc + slots[..j];
      assert slots[1..][k] == slots[j];
    } else {
      j := 0;
      assert acc + slots[..0] == acc;
    }
  }

  lemma {:induction false} AdmittedNeverNoCommand(slots: seq<Arg>, acc: seq<Arg>)
    ensures Admitted(slots, acc) != Err(NoCommand)
    decreases |slots|
  {
    if slots != [] && Admit(acc, slots[0]) == None {
      AdmittedNeverNoCommand(slots[1..], acc + [slots[0]]);
    }
  }

  /** `parse` reports a missing command exactly when the help line is only leaders. */
  lemma SchemaNoCommand(help: string, rule: SlotRule)
    ensures Schema(help, rule) == Err(NoCommand) <==> TrimStartMatches(help, Leader) == []
  {
    SplitTerminatorEmpty(TrimStartMatches(help, Leader), ' ');
    var words := Words(help);
    if words != [] {
      AdmittedNeverNoCommand(Slots(rule, words[1..]), []);
    }
  }

  /**
   * A help line parses exactly when it names a command and its slots form a
   * well-formed schema; the command then has the first word as its name and
   * the slots in declared order.
   */
  lemma SchemaOk(help: string, rule: SlotRule)
    ensures Schema(help, rule).Ok? <==>
      Words(help) != [] && WellFormed(Slots(rule, Words(help)[1..]))
    ensures Schema(help, rule).Ok? ==>
      Schema(help, rule).value == (Words(help)[0], Slots(rule, Words(help)[1..]))
  {
    var words := Words(help);
    if words != [] {
      var slots := Slots(rule, words[1..]);
      AdmittedWellFormed(slots, []);
      assert [] + slots == slots;
    }
  }

  /**
   * A rejected help line that does name a command is rejected for its first
   * slot that breaks the rules, with the first check that slot fails.
   */
  lemma SchemaRejects(help: string, rule: SlotRule, e: Error) returns (j: nat)
    requires Schema(help, rule) == Err(e) && e != NoCommand
    ensures Words(help) != []
    ensures var slots := Slots(rule, Words(help)[1..]);
      j < |slots| && WellFormed(slots[..j]) && Admit(slots[..j], slots[j]) == Some(e)
  {
    var slots := Slots(rule, Words(help)[1..]);
    j := AdmittedRejects(slots, [], e);
    assert [] + slots[..j] == slots[..j];
  }

  /**
   * `build` fills in the name and a well-formed schema, and keeps the help line
   * and the privilege flag.
   */
  lemma BuiltCommand(c: Command, rule: SlotRule)
    requires Built(c, rule).Ok?
    ensures var b := Built(c, rule).value;
      b.help == c.help && b.elevated == c.elevated && WellFormed(b.args)
      && b.command == Words(c.help)[0] && b.args == Slots(rule, Words(c.help)[1..])
      && Display(b) == c.help
  {
    SchemaOk(c.help, rule);
  }

  /** Equal commands (same help line) hash alike: parsing the same line gives the same name. */
  lemma HashAgreesWithEq(a: Command, b: Command, rule: SlotRule)
    requires Built(a, rule).Ok? && Built(b, rule).Ok?
    requires SameCommand(a, b)
    ensures SameCommand(Built(a, rule).value, Built(b, rule).value)
    ensures HashKey(Built(a, rule).value) == HashKey(Built(b, rule).value)
  {
  }

  /** `extract` does not need the leader, and any number of leaders is the same as one. */
  lemma ExtractLeaders(c: Command, input: string)
    ensures Extraction(c, [Leader] + input) == Extraction(c, input)
  {
    assert ([Leader] + input)[1..] == input;
  }

  /** A schema without required slots never answers with its help. */
  lemma ExtractNoRequired(c: Command, input: string)
    requires !HasKind(c.args, {ArgKind.Required})
    ensures Extraction(c, input) != ExtractResult.Required
  {
  }

  /**
   * On a match, the bindings are the first slots of the schema, each mapped to
   * the value the walk gave it.
   */
  lemma ExtractFound(c: Command, input: string)
    requires WellFormed(c.args)
    requires Extraction(c, input).Found?
    ensures StartsWith(TrimStartMatches(input, Leader), c.command)
    ensures var w := Walk(c.args, Rest(c, input));
      var m := Extraction(c, input).bindings;
      m.Keys == KeySet(c.args[..|w|]) && forall i :: 0 <= i < |w| ==> m[c.args[i].data] == w[i].1
  {
    WalkBindings(c.args, Rest(c, input));
  }

  lemma WalkBindings(args: seq<Arg>, rest: string)
    requires WellFormed(args)
    ensures var w := Walk(args, rest);
      Bind(w).Keys == KeySet(args[..|w|]) && forall i :: 0 <= i < |w| ==> Bind(w)[args[i].data] == w[i].1
  {
    var w := Walk(args, rest);
    WalkSlots(args, rest);
    BindKeys(w);
    assert KeySet(args[..|w|]) == set i | 0 <= i < |w| :: w[i].0.data by {
      assert forall i :: 0 <= i < |w| ==> args[..|w|][i] == w[i].0;
    }
    assert forall i, j :: 0 <= i < j < |w| ==> w[i].0.data != w[j].0.data by {
      assert forall i :: 0 <= i < |w| ==> w[i].0 == args[i];
    }
    BindDistinct(w);
  }

  /** On a match, nothing is bound exactly when no text follows the name or there are no slots. */
  lemma ExtractEmpty(c: Command, input: string)
    requires Extraction(c, input).Found?
    ensures StartsWith(TrimStartMatches(input, Leader), c.command)
    ensures Extraction(c, input).bindings == map[] <==> Rest(c, input) == [] || c.args == []
  {
    var rest := Rest(c, input);
    var w := Walk(c.args, rest);
    assert Extraction(c, input).bindings == Bind(w);
    BindKeys(w);
    if rest != [] && c.args != [] {
      WalkNonEmpty(c.args, rest);
      assert w[0].0.data in Bind(w);
    } else if c.args != [] {
      assert w == [];
    }
  }

  /** When the keys of a walk are distinct, each key is bound to its own value. */
  lemma {:induction false} BindDistinct(w: seq<(Arg, string)>)
    requires forall i, j :: 0 <= i < j < |w| ==> w[i].0.data != w[j].0.data
    ensures forall i :: 0 <= i < |w| ==> w[i].0.data in Bind(w) && Bind(w)[w[i].0.data] == w[i].1
    decreases |w|
  {
    BindKeys(w);
    if w != [] {
      var w' := w[..|w| - 1];
      BindDistinct(w');
      assert forall i :: 0 <= i < |w| - 1 ==> w'[i] == w[i];
    }
  }

  // ------------------------------------------------------ help-line round trip

  /** The marker after a key that gives its kind. */
  function Suffix(k: ArgKind): string {
    match k
    case Required => ""
    case Optional => "?"
    case Flexible => "..."
  }

  /** How a slot is written in a help line: `<key>`, `<key?>` or `<key...>`. */
  function SlotWord(a: Arg): string {
    "<" + a.data + Suffix(a.ty) + ">"
  }

  function SlotWords(args: seq<Arg>): (r: seq<string>)
    ensures |r| == |args| && forall i :: 0 <= i < |args| ==> r[i] == SlotWord(args[i])
  {
    seq(|args|, i requires 0 <= i < |args| => SlotWord(args[i]))
  }

  /** The help line that declares command `name` with slots `args`. */
  function HelpLine(name: string, args: seq<Arg>): string {
    [Leader] + Join(" ", [name] + SlotWords(args))
  }

  /** Writing one more slot appends a space and the slot's word. */
  lemma HelpLineSnoc(name: string, args: seq<Arg>, a: Arg)
    ensures HelpLine(name, args + [a]) == HelpLine(name, args) + " " + SlotWord(a)
  {
    assert [name] + SlotWords(args + [a]) == ([name] + SlotWords(args)) + [SlotWord(a)];
    JoinSnoc(" ", [name] + SlotWords(args), SlotWord(a));
  }

  /** A key that can be written in a help line: non-empty and alphanumeric. */
  predicate PlainKey(k: string) {
    k != [] && AllAlphanumeric(k)
  }

  /** A name that can head a help line: non-empty, no space, not starting with the leader. */
  predicate PlainName(name: string) {
    name != [] && name[0] != Leader && ' ' !in name
  }

  /** Both slot rules read a written slot back as its key and suffix. */
  lemma SlotWordText(a: Arg, rule: SlotRule)
    requires PlainKey(a.data)
    ensures SlotText(rule, SlotWord(a)) == Some(a.data + Suffix(a.ty))
  {
    var inner := a.data + Suffix(a.ty);
    var w := SlotWord(a);
    SlotWordTrims(a);
    assert StartsWith(w, "<") && EndsWith(w, ">");
    assert |inner| != |w|;
  }

  lemma SlotWordTrims(a: Arg)
    requires PlainKey(a.data)
    ensures var inner := a.data + Suffix(a.ty);
      TrimEndMatches(TrimStartMatches(SlotWord(a), '<'), ">") == inner
      && |SlotWord(a)| == |inner| + 2
  {
    var inner := a.data + Suffix(a.ty);
    var w := SlotWord(a);
    assert w == "<" + (inner + ">");
    assert inner[0] == a.data[0];
    assert w[1..] == inner + ">";
    assert TrimStartMatches(w, '<') == inner + ">";
    InnerNotClosed(a);
    assert (inner + ">")[..|inner|] == inner;
  }

  lemma InnerNotClosed(a: Arg)
    requires PlainKey(a.data)
    ensures TrimEndMatches(a.data + Suffix(a.ty), ">") == a.data + Suffix(a.ty)
  {
    var inner := a.data + Suffix(a.ty);
    assert inner[|inner| - 1] != '>';
  }

  /** Classifying a written key and suffix gives the slot back. */
  lemma ClassifySuffix(a: Arg)
    requires PlainKey(a.data)
    ensures Classify(a.data + Suffix(a.ty)) == a
  {
    match a.ty {
      case Required => ClassifyRequired(a.data);
      case Optional => ClassifyOptional(a.data);
      case Flexible => ClassifyFlexible(a.data);
    }
  }

  lemma ClassifyRequired(k: string)
    requires PlainKey(k)
    ensures Classify(k) == Arg(k, ArgKind.Required)
  {
    assert k[|k| - 1] != '?' && k[|k| - 1] != '.';
    assert !EndsWith(k, "?") && !EndsWith(k, "...");
  }

  lemma ClassifyOptional(k: string)
    requires PlainKey(k)
    ensures Classify(k + "?") == Arg(k, Optional)
  {
    assert k[|k| - 1] != '?';
    assert EndsWith(k + "?", "?");
    assert (k + "?")[..|k + "?"| - 1] == k;
    assert !EndsWith(k, "?");
    assert TrimEndMatches(k, "?") == k;
    assert TrimEndMatches(k + "?", "?") == k;
  }

  lemma ClassifyFlexible(k: string)
    requires PlainKey(k)
    ensures Classify(k + "...") == Arg(k, Flexible)
  {
    var w := k + "...";
    assert k[|k| - 1] != '.';
    assert w[|w| - 1] == '.' && !EndsWith(w, "?");
    assert w[|k|..] == "...";
    assert EndsWith(w, "...");
    assert w[..|w| - 3] == k;
    assert !EndsWith(k, "...");
    assert TrimEndMatches(k, "...") == k;
    assert TrimEndMatches(w, "...") == k;
  }

  lemma {:induction false} SlotsOfSlotWords(rule: SlotRule, args: seq<Arg>)
    requires forall i :: 0 <= i < |args| ==> PlainKey(args[i].data)
    ensures Slots(rule, SlotWords(args)) == args
    decreases |args|
  {
    if args != [] {
      SlotWordText(args[0], rule);
      ClassifySuffix(args[0]);
      SlotsOfSlotWords(rule, args[1..]);
      assert SlotWords(args)[1..] == SlotWords(args[1..]);
    }
  }

  lemma SlotWordNoSpace(a: Arg)
    requires PlainKey(a.data)
    ensures ' ' !in SlotWord(a) && SlotWord(a) != []
  {
    assert SlotWord(a) == "<" + a.data + Suffix(a.ty) + ">";
    assert forall k :: 0 <= k < |a.data| ==> a.data[k] != ' ';
  }

  lemma WordsOfHelpLine(name: string, args: seq<Arg>)
    requires PlainName(name)
    requires forall i :: 0 <= i < |args| ==> PlainKey(args[i].data)
    ensures Words(HelpLine(name, args)) == [name] + SlotWords(args)
  {
    var ws := [name] + SlotWords(args);
    var j := Join(" ", ws);
    forall i | 0 <= i < |ws| ensures ' ' !in ws[i] && ws[i] != [] {
      if i > 0 {
        SlotWordNoSpace(args[i - 1]);
      }
    }
    JoinHead(" ", ws);
    assert ([Leader] + j)[1..] == j;
    assert TrimStartMatches(j, Leader) == j;
    SplitJoin(ws, ' ');
  }

  /**
   * Parsing the help line written for a name and a list of slots checks the
   * slots with the rules of `parse`, whichever slot rule is in use.
   */
  lemma HelpLineSchema(name: string, args: seq<Arg>, rule: SlotRule)
    requires PlainName(name)
    requires forall i :: 0 <= i < |args| ==> PlainKey(args[i].data)
    ensures Schema(HelpLine(name, args), rule) ==
      match Admitted(args, []) case Ok(a) => Ok((name, a)) case Err(e) => Err(e)
  {
    WordsOfHelpLine(name, args);
    var ws := [name] + SlotWords(args);
    assert ws[1..] == SlotWords(args);
    SlotsOfSlotWords(rule, args);
  }

  /** A well-formed schema written as a help line parses back to itself. */
  lemma HelpLineRoundTrip(name: string, args: seq<Arg>, rule: SlotRule)
    requires PlainName(name) && WellFormed(args)
    requires forall i :: 0 <= i < |args| ==> args[i].data != []
    ensures Schema(HelpLine(name, args), rule) == Ok((name, args))
  {
    HelpLineSchema(name, args, rule);
    AdmittedWellFormed(args, []);
    assert [] + args == args;
  }

  // ------------------------------------------------------ messages as words

  /** A chat line: the leader, the command name and argument words, separated by spaces. */
  function ChatLine(name: string, words: seq<string>): string {
    [Leader] + Join(" ", [name] + words)
  }

  /** A word with no whitespace in it. */
  predicate PlainWord(w: string) {
    w != [] && forall i :: 0 <= i < |w| ==> !IsWhitespace(w[i])
  }

  lemma PlainWordNoSpace(w: string)
    requires PlainWord(w)
    ensures ' ' !in w
  {
  }

  /** The leader is stripped and the line becomes the joined words. */
  lemma ChatLineTrim(name: string, words: seq<string>)
    requires PlainName(name)
    ensures TrimStartMatches(ChatLine(name, words), Leader) == Join(" ", [name] + words)
  {
    var j := Join(" ", [name] + words);
    JoinHead(" ", [name] + words);
    assert ([Leader] + j)[1..] == j;
  }

  /** Single spaces in front of a word are all that `trim_start` removes. */
  lemma TrimStartSpace(r: string)
    requires r != [] && !IsWhitespace(r[0])
    ensures TrimStart(" " + r) == r
  {
    assert (" " + r)[1..] == r;
  }

  /**
   * A message naming the command matches it, and the argument text is the
   * words joined by single spaces.
   */
  lemma ChatLineRest(c: Command, words: seq<string>)
    requires PlainName(c.command)
    requires words == [] || PlainWord(words[0])
    ensures StartsWith(TrimStartMatches(ChatLine(c.command, words), Leader), c.command)
    ensures Rest(c, ChatLine(c.command, words)) == Join(" ", words)
  {
    var name := c.command;
    ChatLineTrim(name, words);
    JoinCons(" ", name, words);
    if words != [] {
      var r := Join(" ", words);
      assert (name + " " + r)[..|name|] == name;
      assert (name + " " + r)[|name|..] == " " + r;
      JoinHead(" ", words);
      assert r[0] == words[0][0];
      assert !IsWhitespace(r[0]);
      TrimStartSpace(r);
    } else {
      assert name[..|name|] == name;
      assert name[|name|..] == [];
    }
  }

  /**
   * Names are matched as prefixes: a command named `go` also answers
   * `!gopher`, the rest of the word being taken as argument text.
   */
  lemma PrefixMatches(c: Command, tail: string)
    requires PlainName(c.command) && NoWhitespace(tail)
    ensures Extraction(c, ChatLine(c.command + tail, [])) != NoMatch
  {
    var name := c.command + tail;
    assert PlainName(name) by {
      assert name[0] == c.command[0];
      assert forall i :: 0 <= i < |tail| ==> name[|c.command| + i] == tail[i];
    }
    ChatLineTrim(name, []);
    JoinCons(" ", name, []);
    assert name[..|c.command|] == c.command;
  }

  /** A required or optional slot takes the first of several words. */
  lemma WalkWordsStep(args: seq<Arg>, words: seq<string>)
    requires args != [] && args[0].ty != Flexible && |words| >= 2 && PlainWord(words[0])
    ensures Walk(args, Join(" ", words)) == [(args[0], words[0])] + Walk(args[1..], Join(" ", words[1..]))
  {
    PlainWordNoSpace(words[0]);
    var r := Join(" ", words[1..]);
    assert Join(" ", words) == words[0] + " " + r;
    FindAt(words[0], ' ', r);
    assert words[0] + " " + r == words[0] + [' '] + r;
    assert (words[0] + [' '] + r)[..|words[0]|] == words[0];
    assert (words[0] + [' '] + r)[|words[0]| + 1..] == r;
  }

  /** The last word goes to the next slot, whatever its kind. */
  lemma WalkLastWord(args: seq<Arg>, w: string)
    requires args != [] && PlainWord(w)
    ensures Walk(args, w) == [(args[0], w)]
  {
    PlainWordNoSpace(w);
  }

  /** A flexible slot takes all the remaining text. */
  lemma WalkFlexibleRest(args: seq<Arg>, text: string)
    requires args != [] && args[0].ty == Flexible && text != []
    ensures Walk(args, text) == [(args[0], text)]
  {
  }
}
