/**
 * The cases of the command parser's tests, stated about the model: help lines
 * that build, help lines that are refused, and messages matched against built
 * commands.
 */
module CommandExamples {
  import opened Wrappers
  import opened Text
  import opened CommandTypes
  import opened CommandError
  import opened Commands

  const Req := Arg("req", ArgKind.Required)
  const Req2 := Arg("req2", ArgKind.Required)
  const Opt := Arg("opt", Optional)
  const Opt2 := Arg("opt2", Optional)
  const Flex := Arg("flex", Flexible)
  const Flex1 := Arg("flex1", Flexible)
  const Flex2 := Arg("flex2", Flexible)
  const Dup := Arg("dup", ArgKind.Required)

  /** Parses `line` the way `Command::example(line).build()` does. */
  function ParseLine(line: string): Result<(string, seq<Arg>), Error> {
    Schema(Example(line).help, EitherBracket)
  }

  /** A help line the parser reads back as its name and slots, or refuses with the first error. */
  lemma ParseHelpLine(name: string, args: seq<Arg>)
    requires PlainName(name)
    requires forall i :: 0 <= i < |args| ==> PlainKey(args[i].data)
    ensures ParseLine(HelpLine(name, args)) ==
      match Admitted(args, []) case Ok(a) => Ok((name, a)) case Err(e) => Err(e)
  {
    ExampleSchema(HelpLine(name, args), EitherBracket);
    HelpLineSchema(name, args, EitherBracket);
  }

  /** A well-formed help line builds to exactly its name and slots. */
  lemma GoodLine(args: seq<Arg>)
    requires WellFormed(args) && forall i :: 0 <= i < |args| ==> args[i].data != []
    ensures ParseLine(HelpLine("foo", args)) == Ok(("foo", args))
  {
    ExampleSchema(HelpLine("foo", args), EitherBracket);
    HelpLineRoundTrip("foo", args, EitherBracket);
  }

  // The lines of `parse_good` build.

  lemma ParseGood1()
    ensures ParseLine(HelpLine("foo", [Req, Opt])) == Ok(("foo", [Req, Opt]))
  {
    GoodLine([Req, Opt]);
  }

  lemma ParseGood2()
    ensures ParseLine(HelpLine("foo", [Req, Opt, Opt2])) == Ok(("foo", [Req, Opt, Opt2]))
  {
    GoodLine([Req, Opt, Opt2]);
  }

  lemma ParseGood3()
    ensures ParseLine(HelpLine("foo", [Req, Opt, Flex])) == Ok(("foo", [Req, Opt, Flex]))
  {
    GoodLine([Req, Opt, Flex]);
  }

  lemma ParseGood4()
    ensures ParseLine(HelpLine("foo", [Req, Flex])) == Ok(("foo", [Req, Flex]))
  {
    GoodLine([Req, Flex]);
  }

  lemma ParseGood5()
    ensures ParseLine(HelpLine("foo", [Flex])) == Ok(("foo", [Flex]))
  {
    GoodLine([Flex]);
  }

  lemma ParseGood6()
    ensures ParseLine(HelpLine("foo", [Opt, Flex])) == Ok(("foo", [Opt, Flex]))
  {
    GoodLine([Opt, Flex]);
  }

  lemma ParseGood7()
    ensures ParseLine(HelpLine("foo", [Opt, Opt2, Flex])) == Ok(("foo", [Opt, Opt2, Flex]))
  {
    GoodLine([Opt, Opt2, Flex]);
  }

  /** A refused schema makes the help line fail with the same error. */
  lemma BadLine(args: seq<Arg>, e: Error)
    requires forall i :: 0 <= i < |args| ==> PlainKey(args[i].data)
    requires Admitted(args, []) == Err(e)
    ensures ParseLine(HelpLine("foo", args)) == Err(e)
  {
    ParseHelpLine("foo", args);
  }

  // The lines of `parse_failure` are refused, each with the first error `parse` meets.

  lemma Refused1()
    ensures Admitted([Opt, Req], []) == Err(RequiredInTail)
  {
    AdmittedCons(Opt, [Req], []);
    assert [] + [Opt] == [Opt];
    AdmittedCons(Req, [], [Opt]);
    assert [Req] + [] == [Req];
  }

  lemma ParseFailure1()
    ensures ParseLine(HelpLine("foo", [Opt, Req])) == Err(RequiredInTail)
  {
    Refused1();
    BadLine([Opt, Req], RequiredInTail);
  }

  lemma Refused2()
    ensures Admitted([Flex, Opt], []) == Err(OptionalAfterFlex)
  {
    AdmittedCons(Flex, [Opt], []);
    assert [] + [Flex] == [Flex];
    AdmittedCons(Opt, [], [Flex]);
    assert [Opt] + [] == [Opt];
  }

  lemma ParseFailure2()
    ensures ParseLine(HelpLine("foo", [Flex, Opt])) == Err(OptionalAfterFlex)
  {
    Refused2();
    BadLine([Flex, Opt], OptionalAfterFlex);
  }

  lemma Refused3()
    ensures Admitted([Flex, Req], []) == Err(RequiredInTail)
  {
    AdmittedCons(Flex, [Req], []);
    assert [] + [Flex] == [Flex];
    AdmittedCons(Req, [], [Flex]);
    assert [Req] + [] == [Req];
  }

  lemma ParseFailure3()
    ensures ParseLine(HelpLine("foo", [Flex, Req])) == Err(RequiredInTail)
  {
    Refused3();
    BadLine([Flex, Req], RequiredInTail);
  }

  lemma Refused4()
    ensures Admitted([Req, Opt, Req2], []) == Err(RequiredInTail)
  {
    AdmittedCons(Req, [Opt, Req2], []);
    assert [] + [Req] == [Req];
    AdmittedCons(Opt, [Req2], [Req]);
    assert [Req] + [Opt] == [Req, Opt];
    AdmittedCons(Req2, [], [Req, Opt]);
    assert [Req2] + [] == [Req2];
    assert Admit([Req], Opt) == None by {
      assert KeySet([Req]) == {"req"};
      assert AllAlphanumeric("opt");
      assert [Req][1..] == [];
      assert !HasKind([Req], {Flexible});
    }
    assert [Req, Opt][1..] == [Opt];
    assert "req2" !in KeySet([Req, Opt]) && AllAlphanumeric("req2");
    assert HasKind([Req, Opt], {Optional, Flexible});
    assert Admit([Req, Opt], Req2) == Some(RequiredInTail);
  }

  lemma ParseFailure4()
    ensures ParseLine(HelpLine("foo", [Req, Opt, Req2])) == Err(RequiredInTail)
  {
    Refused4();
    BadLine([Req, Opt, Req2], RequiredInTail);
  }

  lemma Refused5()
    ensures Admitted([Dup, Opt, Dup], []) == Err(DuplicateKey("dup"))
  {
    AdmittedCons(Dup, [Opt, Dup], []);
    assert [] + [Dup] == [Dup];
    AdmittedCons(Opt, [Dup], [Dup]);
    assert [Dup] + [Opt] == [Dup, Opt];
    AdmittedCons(Dup, [], [Dup, Opt]);
    assert [Dup] + [] == [Dup];
    assert Admit([], Dup) == None by {
      assert KeySet([]) == {};
      assert AllAlphanumeric("dup");
    }
    assert Admit([Dup], Opt) == None by {
      assert KeySet([Dup]) == {"dup"};
      assert AllAlphanumeric("opt");
      assert !HasKind([Dup], {Flexible});
    }
    assert "dup" in KeySet([Dup, Opt]) by {
      assert [Dup, Opt][0].data == "dup";
    }
    assert Admit([Dup, Opt], Dup) == Some(DuplicateKey("dup"));
  }

  lemma ParseFailure5()
    ensures ParseLine(HelpLine("foo", [Dup, Opt, Dup])) == Err(DuplicateKey("dup"))
  {
    Refused5();
    BadLine([Dup, Opt, Dup], DuplicateKey("dup"));
  }

  lemma Refused6()
    ensures Admitted([Flex1, Flex2], []) == Err(MultipleFlexible)
  {
    AdmittedCons(Flex1, [Flex2], []);
    assert [] + [Flex1] == [Flex1];
    AdmittedCons(Flex2, [], [Flex1]);
    assert [Flex2] + [] == [Flex2];
  }

  lemma ParseFailure6()
    ensures ParseLine(HelpLine("foo", [Flex1, Flex2])) == Err(MultipleFlexible)
  {
    Refused6();
    BadLine([Flex1, Flex2], MultipleFlexible);
  }

  lemma Refused7()
    ensures Admitted([Opt, Flex1, Flex2], []) == Err(MultipleFlexible)
  {
    AdmittedCons(Opt, [Flex1, Flex2], []);
    assert [] + [Opt] == [Opt];
    AdmittedCons(Flex1, [Flex2], [Opt]);
    assert [Opt] + [Flex1] == [Opt, Flex1];
    AdmittedCons(Flex2, [], [Opt, Flex1]);
    assert [Flex2] + [] == [Flex2];
    assert Admit([Opt], Flex1) == None;
    assert [Opt, Flex1][1..] == [Flex1];
    assert "flex2" !in KeySet([Opt, Flex1]) && AllAlphanumeric("flex2");
    assert HasKind([Opt, Flex1], {Flexible});
    assert Admit([Opt, Flex1], Flex2) == Some(MultipleFlexible);
  }

  lemma ParseFailure7()
    ensures ParseLine(HelpLine("foo", [Opt, Flex1, Flex2])) == Err(MultipleFlexible)
  {
    Refused7();
    BadLine([Opt, Flex1, Flex2], MultipleFlexible);
  }

  lemma Refused8()
    ensures Admitted([Req, Opt, Flex1, Flex2], []) == Err(MultipleFlexible)
  {
    AdmittedCons(Req, [Opt, Flex1, Flex2], []);
    assert [] + [Req] == [Req];
    AdmittedCons(Opt, [Flex1, Flex2], [Req]);
    assert [Req] + [Opt] == [Req, Opt];
    AdmittedCons(Flex1, [Flex2], [Req, Opt]);
    assert [Req, Opt] + [Flex1] == [Req, Opt, Flex1];
    AdmittedCons(Flex2, [], [Req, Opt, Flex1]);
    assert [Flex2] + [] == [Flex2];
    assert Admit([Req], Opt) == None by {
      assert KeySet([Req]) == {"req"};
      assert AllAlphanumeric("opt");
      assert [Req][1..] == [];
      assert !HasKind([Req], {Flexible});
    }
    AdmitsFirstFlexible();
    RefusesSecondFlexible();
  }

  lemma AdmitsFirstFlexible()
    ensures Admit([Req, Opt], Flex1) == None
  {
    assert [Req, Opt][1..] == [Opt] && [Opt][1..] == [];
    assert "flex1" !in KeySet([Req, Opt]) && AllAlphanumeric("flex1");
    assert !HasKind([Opt], {Flexible});
    assert !HasKind([Req, Opt], {Flexible});
  }

  lemma RefusesSecondFlexible()
    ensures Admit([Req, Opt, Flex1], Flex2) == Some(MultipleFlexible)
  {
    assert [Req, Opt, Flex1][1..] == [Opt, Flex1];
    assert [Opt, Flex1][1..] == [Flex1];
    assert "flex2" !in KeySet([Req, Opt, Flex1]) && AllAlphanumeric("flex2");
    assert HasKind([Req, Opt, Flex1], {Flexible});
  }

  lemma ParseFailure8()
    ensures ParseLine(HelpLine("foo", [Req, Opt, Flex1, Flex2])) == Err(MultipleFlexible)
  {
    Refused8();
    BadLine([Req, Opt, Flex1, Flex2], MultipleFlexible);
  }

  // ------------------------------------------------ the help lines, spelled out

  lemma Line1(name: string, a: Arg)
    ensures HelpLine(name, [a]) == [Leader] + name + " " + SlotWord(a)
  {
    HelpLineSnoc(name, [], a);
    assert [] + [a] == [a];
  }

  lemma Line2(name: string, a: Arg, b: Arg)
    ensures HelpLine(name, [a, b]) == [Leader] + name + " " + SlotWord(a) + " " + SlotWord(b)
  {
    Line1(name, a);
    HelpLineSnoc(name, [a], b);
    assert [a] + [b] == [a, b];
  }

  lemma Line3(name: string, a: Arg, b: Arg, c: Arg)
    ensures HelpLine(name, [a, b, c]) ==
      [Leader] + name + " " + SlotWord(a) + " " + SlotWord(b) + " " + SlotWord(c)
  {
    Line2(name, a, b);
    HelpLineSnoc(name, [a, b], c);
    assert [a, b] + [c] == [a, b, c];
  }

  lemma Line4(name: string, a: Arg, b: Arg, c: Arg, d: Arg)
    ensures HelpLine(name, [a, b, c, d]) ==
      [Leader] + name + " " + SlotWord(a) + " " + SlotWord(b) + " " + SlotWord(c) + " " + SlotWord(d)
  {
    Line3(name, a, b, c);
    HelpLineSnoc(name, [a, b, c], d);
    assert [a, b, c] + [d] == [a, b, c, d];
  }

  // Each help line above is the literal line of the tests.

  lemma GoodSpelled1()
    ensures HelpLine("foo", [Req, Opt]) == "!foo <req> <opt?>"
  {
    Line2("foo", Req, Opt);
  }

  lemma GoodSpelled2()
    ensures HelpLine("foo", [Req, Opt, Opt2]) == "!foo <req> <opt?> <opt2?>"
  {
    Line3("foo", Req, Opt, Opt2);
  }

  lemma GoodSpelled3()
    ensures HelpLine("foo", [Req, Opt, Flex]) == "!foo <req> <opt?> <flex...>"
  {
    Line3("foo", Req, Opt, Flex);
  }

  lemma GoodSpelled4()
    ensures HelpLine("foo", [Req, Flex]) == "!foo <req> <flex...>"
  {
    Line2("foo", Req, Flex);
  }

  lemma GoodSpelled5()
    ensures HelpLine("foo", [Flex]) == "!foo <flex...>"
  {
    Line1("foo", Flex);
  }

  lemma GoodSpelled6()
    ensures HelpLine("foo", [Opt, Flex]) == "!foo <opt?> <flex...>"
  {
    Line2("foo", Opt, Flex);
  }

  lemma GoodSpelled7()
    ensures HelpLine("foo", [Opt, Opt2, Flex]) == "!foo <opt?> <opt2?> <flex...>"
  {
    Line3("foo", Opt, Opt2, Flex);
  }

  lemma FailureSpelled1()
    ensures HelpLine("foo", [Opt, Req]) == "!foo <opt?> <req>"
  {
    Line2("foo", Opt, Req);
  }

  lemma FailureSpelled2()
    ensures HelpLine("foo", [Flex, Opt]) == "!foo <flex...> <opt?>"
  {
    Line2("foo", Flex, Opt);
  }

  lemma FailureSpelled3()
    ensures HelpLine("foo", [Flex, Req]) == "!foo <flex...> <req>"
  {
    Line2("foo", Flex, Req);
  }

  lemma FailureSpelled4()
    ensures HelpLine("foo", [Req, Opt, Req2]) == "!foo <req> <opt?> <req2>"
  {
    Line3("foo", Req, Opt, Req2);
  }

  lemma FailureSpelled5()
    ensures HelpLine("foo", [Dup, Opt, Dup]) == "!foo <dup> <opt?> <dup>"
  {
    Line3("foo", Dup, Opt, Dup);
  }

  lemma FailureSpelled6()
    ensures HelpLine("foo", [Flex1, Flex2]) == "!foo <flex1...> <flex2...>"
  {
    Line2("foo", Flex1, Flex2);
  }

  lemma FailureSpelled7()
    ensures HelpLine("foo", [Opt, Flex1, Flex2]) == "!foo <opt?> <flex1...> <flex2...>"
  {
    Line3("foo", Opt, Flex1, Flex2);
    FlexWords();
  }

  lemma FailureSpelled8()
    ensures HelpLine("foo", [Req, Opt, Flex1, Flex2]) == "!foo <req> <opt?> <flex1...> <flex2...>"
  {
    var three := [Req, Opt, Flex1];
    FlexWords();
    assert HelpLine("foo", three) == "!foo <req> <opt?> <flex1...>" by {
      GoodSpelled1();
      HelpLineSnoc("foo", [Req, Opt], Flex1);
      assert [Req, Opt] + [Flex1] == three;
    }
    HelpLineSnoc("foo", three, Flex2);
    assert three + [Flex2] == [Req, Opt, Flex1, Flex2];
  }

  /** How the two flexible slots and `<opt?>` of the examples are written. */
  lemma FlexWords()
    ensures SlotWord(Opt) == "<opt?>"
    ensures SlotWord(Flex1) == "<flex1...>" && SlotWord(Flex2) == "<flex2...>"
  {
  }

  // ------------------------------------------------------ matching messages

  const Name := Arg("name", ArgKind.Required)
  const Other := Arg("other", Optional)
  const RestSlot := Arg("rest", Flexible)
  const OtherReq := Arg("other", ArgKind.Required)
  const Tail := Arg("tail", Flexible)

  /** A well-formed help line builds to a command with that name and those slots. */
  lemma BuildsTo(name: string, args: seq<Arg>)
    requires PlainName(name) && WellFormed(args)
    requires forall i :: 0 <= i < |args| ==> args[i].data != []
    ensures Built(Example(HelpLine(name, args)), EitherBracket).Ok?
    ensures var c := Built(Example(HelpLine(name, args)), EitherBracket).value;
      c.command == name && c.args == args
  {
    ExampleSchema(HelpLine(name, args), EitherBracket);
    HelpLineRoundTrip(name, args, EitherBracket);
  }

  // The commands of `matched` and `extract` build.

  lemma HelloBuilds1()
    ensures var c := Built(Example(HelpLine("hello", [Name, Other, RestSlot])), EitherBracket);
      c.Ok? && c.value.command == "hello" && c.value.args == [Name, Other, RestSlot]
  {
    BuildsTo("hello", [Name, Other, RestSlot]);
  }

  lemma HelloBuilds2()
    ensures var c := Built(Example(HelpLine("hello", [Name, OtherReq])), EitherBracket);
      c.Ok? && c.value.command == "hello" && c.value.args == [Name, OtherReq]
  {
    BuildsTo("hello", [Name, OtherReq]);
  }

  lemma HelloBuilds3()
    ensures var c := Built(Example(HelpLine("hello", [Name, OtherReq, Tail])), EitherBracket);
      c.Ok? && c.value.command == "hello" && c.value.args == [Name, OtherReq, Tail]
  {
    BuildsTo("hello", [Name, OtherReq, Tail]);
  }

  /** Two leading words fill two one-word slots; the flexible slot takes the rest. */
  lemma WalkThree(a: Arg, b: Arg, f: Arg, w1: string, w2: string, tail: string)
    requires a.ty != Flexible && b.ty != Flexible && f.ty == Flexible
    requires PlainWord(w1) && PlainWord(w2) && tail != []
    ensures Walk([a, b, f], Join(" ", [w1, w2, tail])) == [(a, w1), (b, w2), (f, tail)]
  {
    WalkWordsStep([a, b, f], [w1, w2, tail]);
    assert [a, b, f][1..] == [b, f] && [w1, w2, tail][1..] == [w2, tail];
    WalkWordsStep([b, f], [w2, tail]);
    assert [b, f][1..] == [f] && [w2, tail][1..] == [tail];
    WalkFlexibleRest([f], tail);
  }

  /** Two words fill the first two slots, which take one word each. */
  lemma WalkTwo(args: seq<Arg>, w1: string, w2: string)
    requires |args| >= 2 && args[0].ty != Flexible
    requires PlainWord(w1) && PlainWord(w2)
    ensures Walk(args, w1 + " " + w2) == [(args[0], w1), (args[1], w2)]
  {
    WalkWordsStep(args, [w1, w2]);
    assert [w1, w2][1..] == [w2];
    assert Join(" ", [w1, w2]) == w1 + " " + w2;
    WalkLastWord(args[1..], w2);
    assert args[1..][0] == args[1];
  }

  /** With no flexible slot, words beyond the last slot are dropped. */
  lemma WalkDropsExtra(a: Arg, b: Arg, w1: string, w2: string, w3: string)
    requires a.ty != Flexible && b.ty != Flexible
    requires PlainWord(w1) && PlainWord(w2)
    ensures Walk([a, b], Join(" ", [w1, w2, w3])) == [(a, w1), (b, w2)]
  {
    WalkWordsStep([a, b], [w1, w2, w3]);
    assert [a, b][1..] == [b] && [w1, w2, w3][1..] == [w2, w3];
    WalkWordsStep([b], [w2, w3]);
    assert [b][1..] == [];
  }

  lemma BindTwo(a: Arg, b: Arg, v1: string, v2: string)
    ensures Bind([(a, v1), (b, v2)]) == map[a.data := v1, b.data := v2]
  {
    assert [(a, v1), (b, v2)][..1] == [(a, v1)];
    assert [(a, v1)][..0] == [];
    assert Bind([(a, v1)]) == map[a.data := v1];
  }

  lemma BindThree(a: Arg, b: Arg, c: Arg, v1: string, v2: string, v3: string)
    ensures Bind([(a, v1), (b, v2), (c, v3)]) == map[a.data := v1, b.data := v2, c.data := v3]
  {
    assert [(a, v1), (b, v2), (c, v3)][..2] == [(a, v1), (b, v2)];
    BindTwo(a, b, v1, v2);
  }

  /**
   * `!hello world this is a test` against `hello <name> <other?> <rest...>`:
   * the first word is the name, the second the other, and the rest of the
   * line, spaces and all, the rest.
   */
  lemma MatchedAll(c: Command, w1: string, w2: string, tail: string)
    requires PlainName(c.command) && c.args == [Name, Other, RestSlot]
    requires PlainWord(w1) && PlainWord(w2) && tail != []
    ensures Extraction(c, ChatLine(c.command, [w1, w2, tail])) ==
      Found(map["name" := w1, "other" := w2, "rest" := tail])
  {
    ChatLineRest(c, [w1, w2, tail]);
    WalkThree(Name, Other, RestSlot, w1, w2, tail);
    BindThree(Name, Other, RestSlot, w1, w2, tail);
  }

  /** `!hello world`: only the name is bound. */
  lemma MatchedName(c: Command, w1: string)
    requires PlainName(c.command) && c.args == [Name, Other, RestSlot]
    requires PlainWord(w1)
    ensures Extraction(c, ChatLine(c.command, [w1])) == Found(map["name" := w1])
  {
    ChatLineRest(c, [w1]);
    WalkLastWord(c.args, w1);
    assert [(Name, w1)][..0] == [];
    assert Bind([(Name, w1)]) == map["name" := w1];
  }

  /** `!hello`: a required slot is left without text. */
  lemma MatchedRequired(c: Command)
    requires PlainName(c.command) && c.args == [Name, Other, RestSlot]
    ensures Extraction(c, ChatLine(c.command, [])) == ExtractResult.Required
  {
    ChatLineRest(c, []);
  }

  /** `!testing world this is a test`: a line naming another command does not match. */
  lemma MatchedOther(c: Command, name: string, words: seq<string>)
    requires c.command != [] && PlainName(name) && name[0] != c.command[0]
    ensures Extraction(c, ChatLine(name, words)) == NoMatch
  {
    ChatLineTrim(name, words);
    JoinHead(" ", [name] + words);
  }

  /** `!` and the empty line do not match a named command. */
  lemma MatchedNothing(c: Command)
    requires c.command != []
    ensures Extraction(c, [Leader]) == NoMatch && Extraction(c, []) == NoMatch
  {
    assert [Leader][1..] == [];
  }

  /** `!hello world testing this` against `hello <name> <other>`: the extra word is dropped. */
  lemma ExtractDropsExtra(c: Command, w1: string, w2: string, w3: string)
    requires PlainName(c.command) && c.args == [Name, OtherReq]
    requires PlainWord(w1) && PlainWord(w2) && PlainWord(w3)
    ensures Extraction(c, ChatLine(c.command, [w1, w2, w3])) == Found(map["name" := w1, "other" := w2])
  {
    ChatLineRest(c, [w1, w2, w3]);
    WalkDropsExtra(Name, OtherReq, w1, w2, w3);
    BindTwo(Name, OtherReq, w1, w2);
  }

  /** `!hello world testing` against `hello <name> <other>` or `hello <name> <other> <tail...>`. */
  lemma ExtractTwo(c: Command, w1: string, w2: string)
    requires PlainName(c.command) && (c.args == [Name, OtherReq] || c.args == [Name, OtherReq, Tail])
    requires PlainWord(w1) && PlainWord(w2)
    ensures Extraction(c, ChatLine(c.command, [w1, w2])) == Found(map["name" := w1, "other" := w2])
  {
    ChatLineRest(c, [w1, w2]);
    JoinCons(" ", w1, [w2]);
    WalkTwo(c.args, w1, w2);
    BindTwo(Name, OtherReq, w1, w2);
  }

  /** `!hello world testing this is the tail` against `hello <name> <other> <tail...>`. */
  lemma ExtractTail(c: Command, w1: string, w2: string, tail: string)
    requires PlainName(c.command) && c.args == [Name, OtherReq, Tail]
    requires PlainWord(w1) && PlainWord(w2) && tail != []
    ensures Extraction(c, ChatLine(c.command, [w1, w2, tail])) ==
      Found(map["name" := w1, "other" := w2, "tail" := tail])
  {
    ChatLineRest(c, [w1, w2, tail]);
    WalkThree(Name, OtherReq, Tail, w1, w2, tail);
    BindThree(Name, OtherReq, Tail, w1, w2, tail);
  }

  /**
   * `to_string` of a built command is its help text, which `Command::example`
   * stored without the leader: the line a command was written from comes
   * back with its leading `!` removed.
   */
  lemma DisplayOmitsLeader(name: string, args: seq<Arg>)
    requires PlainName(name) && WellFormed(args)
    requires forall i :: 0 <= i < |args| ==> args[i].data != []
    ensures Built(Example(HelpLine(name, args)), EitherBracket).Ok?
    ensures var d := Display(Built(Example(HelpLine(name, args)), EitherBracket).value);
      [Leader] + d == HelpLine(name, args) && d != HelpLine(name, args)
  {
    BuildsTo(name, args);
    BuiltCommand(Example(HelpLine(name, args)), EitherBracket);
    ChatLineTrim(name, SlotWords(args));
    assert HelpLine(name, args) == ChatLine(name, SlotWords(args));
  }

  // The chat lines above, spelled out.

  /** A chat line of a name and three words, written out. */
  lemma ChatLineThree(name: string, a: string, b: string, c: string)
    ensures ChatLine(name, [a, b, c]) == "!" + name + " " + a + " " + b + " " + c
  {
    assert [name] + [a, b, c] == [name, a, b, c];
    JoinCons(" ", name, [a, b, c]);
    var abc := Join(" ", [a, b, c]);
    JoinThree(a, b, c);
    var p := "!" + name + " ";
    assert ChatLine(name, [a, b, c]) == p + abc;
    Regroup(p, a + " " + b + " ", c);
    Regroup(p, a + " ", b + " ");
    Regroup(p + a + " ", b, " ");
  }

  /** Three words joined with single spaces. */
  lemma JoinThree(a: string, b: string, c: string)
    ensures Join(" ", [a, b, c]) == a + " " + b + " " + c
  {
    assert [b] + [c] == [b, c] && [a] + [b, c] == [a, b, c];
    JoinCons(" ", b, [c]);
    JoinCons(" ", a, [b, c]);
    Regroup(a + " ", b + " ", c);
    Regroup(a + " ", b, " ");
  }

  /** Appending is associative. */
  lemma Regroup(x: string, y: string, z: string)
    ensures x + (y + z) == x + y + z
  {
  }

  lemma ChatLinesSpelled1()
    ensures ChatLine("hello", ["world", "this", "is a test"]) == "!hello world this is a test"
  {
    ChatLineThree("hello", "world", "this", "is a test");
  }

  lemma ChatLinesSpelled2()
    ensures ChatLine("hello", ["world"]) == "!hello world"
    ensures ChatLine("hello", []) == "!hello"
  {
    JoinCons(" ", "hello", ["world"]);
    JoinCons(" ", "hello", []);
  }

  lemma ChatLinesSpelled3()
    ensures ChatLine("testing", ["world", "this", "is a test"]) == "!testing world this is a test"
  {
    ChatLineThree("testing", "world", "this", "is a test");
  }

  lemma ChatLinesSpelled4()
    ensures ChatLine("hello", ["world", "testing", "this"]) == "!hello world testing this"
  {
    ChatLineThree("hello", "world", "testing", "this");
  }

  lemma ChatLinesSpelled5()
    ensures ChatLine("hello", ["world", "testing"]) == "!hello world testing"
  {
    JoinCons(" ", "hello", ["world", "testing"]);
    JoinCons(" ", "world", ["testing"]);
  }

  lemma ChatLinesSpelled6()
    ensures ChatLine("hello", ["world", "testing", "this is the tail"]) == "!hello world testing this is the tail"
  {
    ChatLineThree("hello", "world", "testing", "this is the tail");
    Spelled6Pieces();
  }

  lemma Spelled6Pieces()
    ensures "!" + "hello" + " " == "!hello "
    ensures "!hello " + "world" + " " == "!hello world "
    ensures "!hello world " + "testing" + " " == "!hello world testing "
    ensures "!hello world testing " + "this is the tail" == "!hello world testing this is the tail"
  {
  }

  /** The words of the test messages are plain, and `hello` and `testing` differ at once. */
  lemma WordsArePlain()
    ensures PlainName("hello") && PlainName("testing") && "hello"[0] != "testing"[0]
    ensures PlainWord("world") && PlainWord("this") && PlainWord("testing")
  {
  }
}
