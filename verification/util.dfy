/**
 * The two helpers of still_shaken/src/util.rs (copied verbatim into
 * still_shaken/src/lib.rs): `shrink_string`, which cuts a string down to a
 * byte offset below `max` that falls on a character boundary, and
 * `inspect_err`, which lets a callback look at an error on its way through.
 */
module Util {
  import opened Wrappers
  import opened Utf8

  /**
   * The largest byte offset `i` with `1 <= i <= hi` that is a character
   * boundary of `s`, searching downwards as `(1..max).rev()` does.
   */
  function LastBoundary(s: string, hi: nat): (r: Option<nat>)
    ensures r.Some? ==> 1 <= r.value <= hi && IsCharBoundary(s, r.value)
    ensures r.Some? ==> forall j :: r.value < j <= hi ==> !IsCharBoundary(s, j)
    ensures r.None? ==> forall j :: 1 <= j <= hi ==> !IsCharBoundary(s, j)
  {
    if hi == 0 then None
    else if IsCharBoundary(s, hi) then Some(hi)
    else LastBoundary(s, hi - 1)
  }

  /** What `shrink_string(s, max)` returns. */
  function Shrink(s: string, max: nat): string {
    if |s| <= max then s
    else if max == 0 then s
    else match LastBoundary(s, max - 1)
      case None => s
      case Some(i) => PrefixBytes(s, i)
  }

  /** `shrink_string`: the loop walks the offsets `max - 1` down to 1. */
  method ShrinkString(s: string, max: nat) returns (r: string)
    ensures r == Shrink(s, max)
  {
    if |s| <= max {
      return s;
    }
    var i := max;
    while i > 1
      invariant i <= max && (max > 0 ==> i >= 1)
      invariant max > 0 ==> LastBoundary(s, max - 1) == LastBoundary(s, i - 1)
    {
      i := i - 1;
      if IsCharBoundary(s, i) {
        return PrefixBytes(s, i);
      }
    }
    r := s;
  }

  /** The result is always the characters of a prefix of `s`, so it ends on a character boundary. */
  lemma ShrinkPrefix(s: string, max: nat)
    ensures StartsWithChars(s, Shrink(s, max))
    ensures IsCharBoundary(s, ByteLen(Shrink(s, max)))
  {
    var r := Shrink(s, max);
    assert s[..|r|] == r;
  }

  /** A string of at most `max` characters is returned as it is. */
  lemma ShrinkShort(s: string, max: nat)
    requires |s| <= max
    ensures Shrink(s, max) == s
  {
  }

  /**
   * A longer string is cut at the largest character boundary below `max`
   * bytes when there is one, and otherwise returned whole.
   */
  lemma ShrinkLong(s: string, max: nat)
    requires |s| > max
    ensures var r := Shrink(s, max);
      (r == s && forall j :: 1 <= j < max ==> !IsCharBoundary(s, j))
      || (1 <= ByteLen(r) < max && forall j :: ByteLen(r) < j < max ==> !IsCharBoundary(s, j))
  {
    if max > 0 {
      match LastBoundary(s, max - 1)
      case None =>
      case Some(i) =>
    }
  }

  /**
   * When `s` starts with an ASCII character, offset 1 is a boundary, so a
   * string longer than `max >= 2` always comes back shorter than `max` bytes.
   */
  lemma ShrinkAsciiStart(s: string, max: nat)
    requires |s| > max >= 2 && s[0] < '\U{80}'
    ensures ByteLen(Shrink(s, max)) < max && Shrink(s, max) != []
  {
    assert ByteLen(s[..1]) == 1 by {
      assert s[..1][1..] == [];
    }
    assert IsCharBoundary(s, 1);
    var b := LastBoundary(s, max - 1);
    assert b.Some?;
  }

  /** With `max <= 1` the range of offsets is empty and the whole string comes back. */
  lemma ShrinkTiny(s: string, max: nat)
    requires max <= 1
    ensures Shrink(s, max) == s
  {
  }

  /** "hello" with `max` 3: offset 2 is the largest boundary below 3. */
  lemma ShrinkHello()
    ensures Shrink("hello", 3) == "he"
  {
    assert ByteLen("he") == 2;
    assert "hello"[..2] == "he";
    assert IsCharBoundary("hello", 2);
    assert "hello"[1..] == "ello" && "ello"[1..] == "llo";
    assert IsCharBoundary("ello", 1) && IsCharBoundary("llo", 0);
    assert PrefixBytes("ello", 1) == "e";
  }

  /**
   * Three two-byte characters with `max` 2: offset 1 falls inside the first
   * character, no boundary is left to try, and all three characters come back.
   */
  lemma ShrinkWideKept()
    ensures Shrink("\U{e9}\U{e9}\U{e9}", 2) == "\U{e9}\U{e9}\U{e9}"
  {
    assert !IsCharBoundary("\U{e9}\U{e9}\U{e9}", 1);
  }

  /**
   * `inspect_err`: the callback is shown the error (modelled as the line it
   * would log) and the result passes through unchanged.
   */
  function InspectErr<T, E>(r: Result<T, E>, inspect: E -> string): (out: (Result<T, E>, seq<string>))
    ensures out.0 == r
    ensures r.Ok? <==> out.1 == []
    ensures r.Err? ==> out.1 == [inspect(r.error)]
  {
    match r
    case Ok(_) => (r, [])
    case Err(e) => (r, [inspect(e)])
  }
}
