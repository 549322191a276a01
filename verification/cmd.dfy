/**
 * `Cmd::parse` (still_shaken/src/bot/cmd.rs): a chat line `!head arg body`
 * split into at most three pieces at single whitespace characters.
 */
module Cmds {
  import opened Wrappers
  import opened Text

  datatype Cmd = Cmd(head: string, arg: Option<string>, body: Option<string>)

  /** `s.splitn(3, char::is_whitespace)`: the last piece keeps any further whitespace. */
  function SplitN3(s: string): (p: seq<string>)
    ensures 1 <= |p| <= 3
  {
    match FindWhitespace(s)
    case None => [s]
    case Some(i) =>
      var t := s[i + 1..];
      match FindWhitespace(t)
      case None => [s[..i], t]
      case Some(j) => [s[..i], t[..j], t[j + 1..]]
  }

  /** The second piece as an argument: a lone `!` is none, otherwise one leading `!` is dropped. */
  function Arg(c: string): (r: Option<string>)
    ensures r.None? <==> c == "!"
    ensures r.Some? ==> c == r.value || c == "!" + r.value
  {
    if c == "!" then None
    else if StartsWith(c, "!") then (assert c == "!" + c[1..]; Some(c[1..]))
    else Some(c)
  }

  /** `Cmd::parse` over the message text. */
  function Parse(data: string): (r: Option<Cmd>)
    ensures r.Some? <==> |data| >= 2 && data[0] == '!'
  {
    if !StartsWith(data, "!") || |data| == 1 then None
    else
      var p := SplitN3(data[1..]);
      Some(Cmd(p[0],
               if |p| >= 2 then Arg(p[1]) else None,
               if |p| == 3 then Some(p[2]) else None))
  }

  /**
   * The pieces put back together with the whitespace they were split at give
   * the text again; only the last piece may hold whitespace.
   */
  lemma SplitN3Glue(s: string)
    ensures var p := SplitN3(s);
      (|p| == 1 ==> s == p[0] && NoWhitespace(s))
      && (|p| >= 2 ==> NoWhitespace(p[0]) && |p[0]| < |s| && IsWhitespace(s[|p[0]|]))
      && (|p| == 2 ==> s == p[0] + [s[|p[0]|]] + p[1] && NoWhitespace(p[1]))
      && (|p| == 3 ==> NoWhitespace(p[1]) && s == p[0] + [s[|p[0]|]] + p[1] + [s[|p[0]| + 1 + |p[1]|]] + p[2]
                       && IsWhitespace(s[|p[0]| + 1 + |p[1]|]))
  {
    FindWhitespaceFirst(s);
    match FindWhitespace(s) {
      case None =>
      case Some(i) =>
        var t := s[i + 1..];
        FindWhitespaceFirst(t);
        SplitAt(s, i);
        match FindWhitespace(t) {
          case None =>
          case Some(j) => GlueThree(s, i, j);
        }
    }
  }

  lemma GlueThree(s: string, i: nat, j: nat)
    requires i < |s| && j < |s| - i - 1
    requires s == s[..i] + [s[i]] + s[i + 1..]
    ensures var t := s[i + 1..];
      s == s[..i] + [s[i]] + t[..j] + [s[i + 1 + j]] + t[j + 1..]
  {
    var t := s[i + 1..];
    SplitAt(t, j);
    assert s[i + 1 + j] == t[j];
  }

  /** Splitting text put together from whitespace-free pieces gives the pieces back. */
  lemma SplitN3Pieces(h: string, w1: char, a: string, w2: char, b: string)
    requires NoWhitespace(h) && NoWhitespace(a) && IsWhitespace(w1) && IsWhitespace(w2)
    ensures SplitN3(h + [w1] + a + [w2] + b) == [h, a, b]
    ensures SplitN3(h + [w1] + a) == [h, a]
    ensures SplitN3(h) == [h]
  {
    SplitThree(h, w1, a, w2, b);
    SplitTwo(h, w1, a);
    FindWhitespaceNone(h);
  }

  lemma SplitThree(h: string, w1: char, a: string, w2: char, b: string)
    requires NoWhitespace(h) && NoWhitespace(a) && IsWhitespace(w1) && IsWhitespace(w2)
    ensures SplitN3(h + [w1] + a + [w2] + b) == [h, a, b]
  {
    var s, t := h + [w1] + a + [w2] + b, a + [w2] + b;
    assert s == h + [w1] + t;
    FindWhitespaceAt(h, w1, t);
    assert s[|h| + 1..] == t && s[..|h|] == h;
    FindWhitespaceAt(a, w2, b);
    assert t[..|a|] == a && t[|a| + 1..] == b;
  }

  lemma SplitTwo(h: string, w1: char, a: string)
    requires NoWhitespace(h) && NoWhitespace(a) && IsWhitespace(w1)
    ensures SplitN3(h + [w1] + a) == [h, a]
  {
    var s := h + [w1] + a;
    FindWhitespaceAt(h, w1, a);
    FindWhitespaceNone(a);
    assert s[|h| + 1..] == a && s[..|h|] == h;
  }

  /** `!head arg body`: an argument without a leading `!` is kept as written. */
  lemma ParseThree(h: string, a: string, b: string)
    requires NoWhitespace(h) && NoWhitespace(a) && a != [] && a[0] != '!'
    ensures Parse("!" + h + " " + a + " " + b) == Some(Cmd(h, Some(a), Some(b)))
  {
    var data := "!" + h + " " + a + " " + b;
    assert data[1..] == h + [' '] + a + [' '] + b;
    SplitN3Pieces(h, ' ', a, ' ', b);
    ParseOfThree(data, [h, a, b]);
    assert Arg(a) == Some(a) by {
      assert !StartsWith(a, "!");
    }
  }

  /** A command line whose text splits into three pieces. */
  lemma ParseOfThree(data: string, p: seq<string>)
    requires |data| >= 2 && data[0] == '!' && SplitN3(data[1..]) == p && |p| == 3
    ensures Parse(data) == Some(Cmd(p[0], Arg(p[1]), Some(p[2])))
  {
    assert StartsWith(data, "!");
  }

  /** `!head !arg`: exactly one `!` is dropped from the argument, and a lone `!` is no argument. */
  lemma ParseBangArg(h: string, a: string)
    requires NoWhitespace(h) && NoWhitespace(a)
    ensures Parse("!" + h + " !" + a) == Some(Cmd(h, if a == [] then None else Some(a), None))
  {
    var data := "!" + h + " !" + a;
    assert data[1..] == h + [' '] + ("!" + a);
    assert NoWhitespace("!" + a) by {
      assert forall i :: 1 <= i < |"!" + a| ==> ("!" + a)[i] == a[i - 1];
    }
    SplitN3Pieces(h, ' ', "!" + a, ' ', "");
    if a == [] {
      assert "!" + a == "!";
    } else {
      assert ("!" + a)[1..] == a;
    }
  }

  /** `!head` alone: no argument and no body; `!` alone is not a command. */
  lemma ParseHeadOnly(h: string)
    requires NoWhitespace(h)
    ensures Parse("!" + h) == (if h == [] then None else Some(Cmd(h, None, None)))
  {
    assert ("!" + h)[1..] == h;
    SplitN3Pieces(h, ' ', "", ' ', "");
  }

  /** The head is the text after one `!` up to the first whitespace, and may be empty. */
  lemma ParseHead(data: string)
    requires Parse(data).Some?
    ensures var h := Parse(data).value.head;
      NoWhitespace(h) && StartsWith(data, "!" + h)
      && (|data| == |h| + 1 || IsWhitespace(data[|h| + 1]))
  {
    var s := data[1..];
    SplitN3Glue(s);
    var h := SplitN3(s)[0];
    assert s[..|h|] == h;
    assert data[..|h| + 1] == "!" + h;
  }

  /** "! ping" has an empty head and "ping" as its argument. */
  lemma ParseEmptyHead()
    ensures Parse("! ping") == Some(Cmd("", Some("ping"), None))
  {
    assert "! ping"[1..] == [] + [' '] + "ping";
    SplitN3Pieces("", ' ', "ping", ' ', "");
    ParseOfTwo("! ping", ["", "ping"]);
    assert Arg("ping") == Some("ping");
  }

  /** A command line whose text splits into two pieces. */
  lemma ParseOfTwo(data: string, p: seq<string>)
    requires |data| >= 2 && data[0] == '!' && SplitN3(data[1..]) == p && |p| == 2
    ensures Parse(data) == Some(Cmd(p[0], Arg(p[1]), None))
  {
    assert StartsWith(data, "!");
  }
}
