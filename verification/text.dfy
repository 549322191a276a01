/**
 * String helpers with the meaning of the Rust `str` methods used throughout
 * the bot: `starts_with`, `trim_start_matches`, `find`, `split`,
 * `split_terminator`, `trim_start`, `split_whitespace`, `join`.
 * Strings are sequences of Unicode scalar values; indices count characters.
 */
module Text {
  import opened Wrappers

  predicate StartsWith(s: string, p: string) {
    |p| <= |s| && s[..|p|] == p
  }

  predicate EndsWith(s: string, p: string) {
    |p| <= |s| && s[|s| - |p|..] == p
  }

  /** `s.trim_start_matches(c)`: every leading `c` is removed. */
  function TrimStartMatches(s: string, c: char): (r: string)
    ensures |r| <= |s|
  {
    if |s| > 0 && s[0] == c then TrimStartMatches(s[1..], c) else s
  }

  /**
   * The result is a suffix of the input that does not start with `c`, and
   * only copies of `c` are removed.
   */
  lemma {:induction false} TrimStartMatchesSuffix(s: string, c: char)
    ensures var r := TrimStartMatches(s, c);
      r == s[|s| - |r|..] && (r == [] || r[0] != c)
      && forall i :: 0 <= i < |s| - |r| ==> s[i] == c
    decreases |s|
  {
    if |s| > 0 && s[0] == c {
      TrimStartMatchesSuffix(s[1..], c);
      assert forall i :: 1 <= i < |s| ==> s[i] == s[1..][i - 1];
    }
  }

  /** Trimming twice is trimming once. */
  lemma {:induction false} TrimStartMatchesIdempotent(s: string, c: char)
    ensures TrimStartMatches(TrimStartMatches(s, c), c) == TrimStartMatches(s, c)
    decreases |s|
  {
    if |s| > 0 && s[0] == c {
      TrimStartMatchesIdempotent(s[1..], c);
    } else {
      assert TrimStartMatches(s, c) == s;
    }
  }

  /** `s.trim_end_matches(p)` for a non-empty pattern: every trailing copy of `p` is removed. */
  function TrimEndMatches(s: string, p: string): (r: string)
    requires |p| > 0
    ensures |r| <= |s|
    decreases |s|
  {
    if EndsWith(s, p) then TrimEndMatches(s[..|s| - |p|], p) else s
  }

  /** The result is a prefix of the input that does not end with `p`. */
  lemma {:induction false} TrimEndMatchesPrefix(s: string, p: string)
    requires |p| > 0
    ensures StartsWith(s, TrimEndMatches(s, p)) && !EndsWith(TrimEndMatches(s, p), p)
    decreases |s|
  {
    if EndsWith(s, p) {
      TrimEndMatchesPrefix(s[..|s| - |p|], p);
    }
  }

  /** `s.find(c)`: the index of the first `c`. */
  function Find(s: string, c: char): (r: Option<nat>)
    ensures r.None? <==> c !in s
    ensures r.Some? ==> r.value < |s| && s[r.value] == c
  {
    if |s| == 0 then None
    else if s[0] == c then Some(0)
    else match Find(s[1..], c)
      case None => None
      case Some(i) => Some(i + 1)
  }

  /** `find` reports the first occurrence. */
  lemma {:induction false} FindFirst(s: string, c: char)
    requires Find(s, c).Some?
    ensures c !in s[..Find(s, c).value]
    decreases |s|
  {
    if s[0] != c {
      FindFirst(s[1..], c);
      assert s[..Find(s, c).value] == [s[0]] + s[1..][..Find(s[1..], c).value];
    }
  }

  lemma {:induction false} FindAt(a: string, c: char, b: string)
    requires c !in a
    ensures Find(a + [c] + b, c) == Some(|a|)
    decreases |a|
  {
    if a != [] {
      assert (a + [c] + b)[0] == a[0] && (a + [c] + b)[1..] == a[1..] + [c] + b;
      FindAt(a[1..], c, b);
    } else {
      assert (a + [c] + b)[0] == c;
    }
  }

  /** A string is the text before index `k`, the character at `k`, and the text after. */
  lemma SplitAt(s: string, k: nat)
    requires k < |s|
    ensures s == s[..k] + [s[k]] + s[k + 1..]
  {
    assert s[k..] == [s[k]] + s[k + 1..];
  }

  /** `s.split(c)`: the pieces between the separators; there is always at least one. */
  function Split(s: string, c: char): (r: seq<string>)
    ensures |r| >= 1
    decreases |s|
  {
    match Find(s, c)
    case None => [s]
    case Some(i) => [s[..i]] + Split(s[i + 1..], c)
  }

  /** No piece of a split holds the separator. */
  lemma {:induction false} SplitPieces(s: string, c: char)
    ensures forall i :: 0 <= i < |Split(s, c)| ==> c !in Split(s, c)[i]
    decreases |s|
  {
    match Find(s, c) {
      case None =>
      case Some(k) =>
        FindFirst(s, c);
        SplitPieces(s[k + 1..], c);
        var r := Split(s, c);
        assert forall i :: 1 <= i < |r| ==> r[i] == Split(s[k + 1..], c)[i - 1];
    }
  }

  /** `s.split_terminator(c)`: like `split`, but a trailing empty piece is dropped. */
  function SplitTerminator(s: string, c: char): (r: seq<string>)
    ensures |r| <= |Split(s, c)| && r == Split(s, c)[..|r|]
  {
    var p := Split(s, c);
    if p[|p| - 1] == [] then p[..|p| - 1] else p
  }

  /** The pieces joined with `sep` between neighbours (`[..].join(sep)`). */
  function Join(sep: string, parts: seq<string>): string {
    if |parts| == 0 then ""
    else if |parts| == 1 then parts[0]
    else parts[0] + sep + Join(sep, parts[1..])
  }

  /** A join starts with the first piece. */
  lemma JoinHead(sep: string, parts: seq<string>)
    requires |parts| >= 1
    ensures StartsWith(Join(sep, parts), parts[0])
  {
  }

  /** Joining one more piece appends the separator and the piece. */
  lemma {:induction false} JoinSnoc(sep: string, parts: seq<string>, x: string)
    requires |parts| >= 1
    ensures Join(sep, parts + [x]) == Join(sep, parts) + sep + x
    decreases |parts|
  {
    if |parts| > 1 {
      assert (parts + [x])[1..] == parts[1..] + [x];
      JoinSnoc(sep, parts[1..], x);
    }
  }

  lemma {:induction false} SplitNoSeparator(s: string, c: char)
    requires c !in s
    ensures Split(s, c) == [s]
  {
  }

  lemma {:induction false} SplitAtSeparator(a: string, c: char, b: string)
    requires c !in a
    ensures Split(a + [c] + b, c) == [a] + Split(b, c)
  {
    var s := a + [c] + b;
    FindAt(a, c, b);
    assert s[..|a|] == a && s[|a| + 1..] == b;
  }

  /** Splitting the joined pieces gives the pieces back when none holds the separator. */
  lemma {:induction false} SplitJoin(parts: seq<string>, c: char)
    requires |parts| >= 1
    requires forall i :: 0 <= i < |parts| ==> c !in parts[i]
    ensures Split(Join([c], parts), c) == parts
    decreases |parts|
  {
    if |parts| == 1 {
      SplitNoSeparator(parts[0], c);
    } else {
      SplitJoin(parts[1..], c);
      SplitAtSeparator(parts[0], c, Join([c], parts[1..]));
      assert parts[0] + [c] + Join([c], parts[1..]) == Join([c], parts);
      assert [parts[0]] + parts[1..] == parts;
    }
  }

  /** An empty input is the only one `split_terminator` yields nothing for. */
  lemma {:induction false} SplitTerminatorEmpty(s: string, c: char)
    ensures SplitTerminator(s, c) == [] <==> s == []
  {
    var p := Split(s, c);
    if s != [] {
      match Find(s, c) {
        case None => assert p == [s];
        case Some(i) => assert |p| >= 2;
      }
    }
  }

  /** The first piece of `split_terminator` is the text up to the first separator. */
  lemma {:induction false} SplitTerminatorHead(s: string, c: char)
    requires s != []
    ensures SplitTerminator(s, c) != [] && SplitTerminator(s, c)[0] == match Find(s, c) case None => s case Some(i) => s[..i]
  {
    SplitTerminatorEmpty(s, c);
  }

  /** Rust `char::is_whitespace`: the Unicode White_Space property. */
  predicate IsWhitespace(ch: char) {
    ch == ' ' || ('\t' <= ch <= '\r') || ch == '\U{0085}' || ch == '\U{00A0}'
    || ch == '\U{1680}' || ('\U{2000}' <= ch <= '\U{200A}') || ch == '\U{2028}'
    || ch == '\U{2029}' || ch == '\U{202F}' || ch == '\U{205F}' || ch == '\U{3000}'
  }

  /** `char::is_alphanumeric`, restricted to ASCII letters and digits. */
  predicate IsAlphanumeric(ch: char) {
    ('a' <= ch <= 'z') || ('A' <= ch <= 'Z') || ('0' <= ch <= '9')
  }

  predicate AllAlphanumeric(s: string) {
    forall i :: 0 <= i < |s| ==> IsAlphanumeric(s[i])
  }

  /** `s.trim_start()`: leading whitespace removed. */
  function TrimStart(s: string): (r: string)
    ensures |r| <= |s|
  {
    if |s| > 0 && IsWhitespace(s[0]) then TrimStart(s[1..]) else s
  }

  /** The result is a suffix without leading whitespace; only whitespace is removed. */
  lemma {:induction false} TrimStartSuffix(s: string)
    ensures var r := TrimStart(s);
      r == s[|s| - |r|..] && (r == [] || !IsWhitespace(r[0]))
      && forall i :: 0 <= i < |s| - |r| ==> IsWhitespace(s[i])
    decreases |s|
  {
    if |s| > 0 && IsWhitespace(s[0]) {
      TrimStartSuffix(s[1..]);
      assert forall i :: 1 <= i < |s| ==> s[i] == s[1..][i - 1];
    }
  }

  /** The index of the first whitespace character. */
  function FindWhitespace(s: string): (r: Option<nat>)
    ensures r.Some? ==> r.value < |s| && IsWhitespace(s[r.value])
  {
    if |s| == 0 then None
    else if IsWhitespace(s[0]) then Some(0)
    else match FindWhitespace(s[1..])
      case None => None
      case Some(i) => Some(i + 1)
  }

  predicate NoWhitespace(s: string) {
    forall i :: 0 <= i < |s| ==> !IsWhitespace(s[i])
  }

  /** The whitespace found is the first one, and none is found only when there is none. */
  lemma {:induction false} FindWhitespaceFirst(s: string)
    ensures FindWhitespace(s).None? ==> NoWhitespace(s)
    ensures FindWhitespace(s).Some? ==> NoWhitespace(s[..FindWhitespace(s).value])
    decreases |s|
  {
    if |s| > 0 && !IsWhitespace(s[0]) {
      FindWhitespaceFirst(s[1..]);
      assert forall i :: 1 <= i < |s| ==> s[i] == s[1..][i - 1];
    }
  }

  /** The first whitespace of `a + [w] + b` is `w` when `a` has none. */
  lemma {:induction false} FindWhitespaceAt(a: string, w: char, b: string)
    requires NoWhitespace(a) && IsWhitespace(w)
    ensures FindWhitespace(a + [w] + b) == Some(|a|)
    decreases |a|
  {
    if a == [] {
      assert (a + [w] + b)[0] == w;
    } else {
      assert (a + [w] + b)[0] == a[0];
      assert (a + [w] + b)[1..] == a[1..] + [w] + b;
      FindWhitespaceAt(a[1..], w, b);
    }
  }

  /** A text without whitespace has none to find. */
  lemma {:induction false} FindWhitespaceNone(s: string)
    requires NoWhitespace(s)
    ensures FindWhitespace(s) == None
    decreases |s|
  {
    if s != [] {
      FindWhitespaceNone(s[1..]);
    }
  }

  /** `s.split_whitespace().next()`: the first run of non-whitespace characters, if any. */
  function FirstWord(s: string): (r: Option<string>)
    ensures r.Some? ==> r.value != []
  {
    var t := TrimStart(s);
    TrimStartSuffix(s);
    if t == [] then None
    else match FindWhitespace(t)
      case None => Some(t)
      case Some(i) => assert i > 0; Some(t[..i])
  }

  /** The first word of a word followed by whitespace (or by nothing) is that word. */
  lemma FirstWordOf(w: string, rest: string)
    requires w != [] && NoWhitespace(w)
    requires rest == [] || IsWhitespace(rest[0])
    ensures FirstWord(w + rest) == Some(w)
  {
    assert (w + rest)[0] == w[0];
    assert TrimStart(w + rest) == w + rest;
    if rest == [] {
      assert w + rest == w;
      FindWhitespaceNone(w);
    } else {
      assert w + [rest[0]] + rest[1..] == w + rest;
      FindWhitespaceAt(w, rest[0], rest[1..]);
      assert (w + rest)[..|w|] == w;
    }
  }

  /** Only a text of nothing but whitespace has no first word. */
  lemma FirstWordNone(s: string)
    ensures FirstWord(s).None? <==> forall i :: 0 <= i < |s| ==> IsWhitespace(s[i])
  {
    TrimStartSuffix(s);
    var t := TrimStart(s);
    if t != [] {
      assert s[|s| - |t|] == t[0];
    }
  }
}
