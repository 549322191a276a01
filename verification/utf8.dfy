/**
 * UTF-8 byte lengths. Rust strings are indexed by byte; the model keeps
 * characters and converts with these functions where the code compares
 * byte offsets (`char_indices`, `is_char_boundary`, `len`).
 */
module Utf8 {
  /** Bytes UTF-8 uses to encode `c`. */
  function Width(c: char): (w: nat)
    ensures 1 <= w <= 4
    ensures w == 1 <==> c < '\U{80}'
  {
    if c < '\U{80}' then 1
    else if c < '\U{800}' then 2
    else if c < '\U{10000}' then 3
    else 4
  }

  /** The UTF-8 length of `s` in bytes (Rust `str::len`). */
  function ByteLen(s: string): (n: nat)
    ensures n >= |s|
  {
    if s == [] then 0 else Width(s[0]) + ByteLen(s[1..])
  }

  lemma {:induction false} ByteLenAppend(a: string, b: string)
    ensures ByteLen(a + b) == ByteLen(a) + ByteLen(b)
    decreases |a|
  {
    if a != [] {
      assert (a + b)[0] == a[0] && (a + b)[1..] == a[1..] + b;
      ByteLenAppend(a[1..], b);
    } else {
      assert a + b == b;
    }
  }

  /** Byte offset of character index `i` (what `char_indices` reports). */
  function Offset(s: string, i: nat): nat
    requires i <= |s|
  {
    ByteLen(s[..i])
  }

  /** A string of one byte is exactly one ASCII character. */
  lemma ByteLenOne(s: string)
    ensures ByteLen(s) == 1 <==> |s| == 1 && s[0] < '\U{80}'
  {
    if |s| >= 1 {
      assert ByteLen(s) == Width(s[0]) + ByteLen(s[1..]);
    }
  }

  /**
   * `s.is_char_boundary(b)`: byte offset `b` starts a character or is the end.
   * Offsets past the end are not boundaries.
   */
  function IsCharBoundary(s: string, b: nat): (r: bool)
    ensures r <==> exists k :: 0 <= k <= |s| && ByteLen(s[..k]) == b
    decreases |s|
  {
    if b == 0 then (assert s[..0] == []; true)
    else if s == [] then false
    else if b < Width(s[0]) then
      (assert forall k :: 0 < k <= |s| ==> ByteLen(s[..k]) >= Width(s[0]) by {
         forall k | 0 < k <= |s| ensures ByteLen(s[..k]) >= Width(s[0]) {
           assert s[..k][0] == s[0];
         }
       }
       false)
    else
      var r := IsCharBoundary(s[1..], b - Width(s[0]));
      assert forall k :: 0 < k <= |s| ==> ByteLen(s[..k]) == Width(s[0]) + ByteLen(s[1..][..k - 1]) by {
        forall k | 0 < k <= |s| ensures ByteLen(s[..k]) == Width(s[0]) + ByteLen(s[1..][..k - 1]) {
          assert s[..k][1..] == s[1..][..k - 1];
        }
      }
      assert r ==> exists k :: 0 <= k <= |s| && ByteLen(s[..k]) == b by {
        if r {
          var k' :| 0 <= k' <= |s| - 1 && ByteLen(s[1..][..k']) == b - Width(s[0]);
          assert ByteLen(s[..k' + 1]) == b;
        }
      }
      r
  }

  /** The characters whose encoding is the first `b` bytes (`&s[..b]` at a boundary). */
  function PrefixBytes(s: string, b: nat): (r: string)
    requires IsCharBoundary(s, b)
    ensures StartsWithChars(s, r) && ByteLen(r) == b
    decreases |s|
  {
    if b == 0 then []
    else
      assert s != [];
      assert IsCharBoundary(s[1..], b - Width(s[0])) by {
        var k :| 0 <= k <= |s| && ByteLen(s[..k]) == b;
        assert k > 0;
        assert s[..k][1..] == s[1..][..k - 1];
      }
      [s[0]] + PrefixBytes(s[1..], b - Width(s[0]))
  }

  predicate StartsWithChars(s: string, p: string) {
    |p| <= |s| && s[..|p|] == p
  }
}
