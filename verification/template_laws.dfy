/**
 * What `find_keys` and `apply` do to a template written out from pieces:
 * plain text and `${key}` placeholders. Scanning such a template finds its
 * keys in order (or refuses it because one key is a single byte), and
 * applying an environment puts each bound key's value where its
 * placeholders stood, leaving unbound placeholders as they were.
 */
module TemplateLaws {
  import opened Wrappers
  import opened Text
  import opened Utf8
  import opened Templates

  datatype Piece = Text(text: string) | Hole(key: string)

  /** The template text of a piece. */
  function Show(p: Piece): string {
    match p
    case Text(t) => t
    case Hole(k) => Placeholder(k)
  }

  /** The template text of a sequence of pieces. */
  function Flat(doc: seq<Piece>): (s: string)
    decreases |doc|
  {
    if doc == [] then [] else Show(doc[0]) + Flat(doc[1..])
  }

  /** The keys of the placeholders, in order. */
  function HolesOf(doc: seq<Piece>): (keys: seq<string>)
    ensures |keys| <= |doc|
    decreases |doc|
  {
    if doc == [] then []
    else if doc[0].Hole? then [doc[0].key] + HolesOf(doc[1..])
    else HolesOf(doc[1..])
  }

  /**
   * Text that never starts a placeholder: it may hold `$`, but each one is
   * followed, inside the text, by something other than `{`.
   */
  predicate FreeText(t: string) {
    forall i :: 0 <= i < |t| && t[i] == '$' ==> i + 1 < |t| && t[i + 1] != '{'
  }

  /** Laid out in `s` at `k`, free text opens no placeholder. */
  lemma FreeTextNoOpen(s: string, k: nat, t: string)
    requires k + |t| <= |s| && s[k..k + |t|] == t && FreeText(t)
    ensures forall i :: k <= i < k + |t| ==> !OpensAt(s, i)
  {
    forall i | k <= i < k + |t|
      ensures !OpensAt(s, i)
    {
      assert s[i] == t[i - k];
      if t[i - k] == '$' {
        assert s[i + 1] == t[i - k + 1];
      }
    }
  }

  /** A key that can sit between `${` and `}` and be found again. */
  predicate FreeKey(k: string) {
    '$' !in k && '{' !in k && '}' !in k
  }

  /** A key the scanner refuses as "empty": one byte long. */
  predicate OneByte(k: string) {
    |k| == 1 && k[0] < '\U{80}'
  }

  /** Every text piece is free text and every key a free key. */
  predicate Plain(doc: seq<Piece>)
    decreases |doc|
  {
    doc == [] ||
    ((match doc[0] case Text(t) => FreeText(t) case Hole(k) => FreeKey(k)) && Plain(doc[1..]))
  }

  // ----------------------------------------------------------------- scanning

  /** Character positions of the placeholders' `$`, if the text of `doc` starts at `k`. */
  function HeadsOf(doc: seq<Piece>, k: nat): (h: seq<nat>)
    ensures |h| == |HolesOf(doc)|
    decreases |doc|
  {
    if doc == [] then []
    else if doc[0].Hole? then [k] + HeadsOf(doc[1..], k + |Show(doc[0])|)
    else HeadsOf(doc[1..], k + |Show(doc[0])|)
  }

  /** Character positions of the placeholders' `}`, if the text of `doc` starts at `k`. */
  function TailsOf(doc: seq<Piece>, k: nat): (t: seq<nat>)
    ensures |t| == |HolesOf(doc)|
    decreases |doc|
  {
    if doc == [] then []
    else if doc[0].Hole? then [k + |doc[0].key| + 2] + TailsOf(doc[1..], k + |Show(doc[0])|)
    else TailsOf(doc[1..], k + |Show(doc[0])|)
  }

  /** `s` holds `a + b` from `k` on, so it holds `a` at `k` and `b` right after. */
  lemma SliceSplit(s: string, k: nat, e: nat, a: string, b: string)
    requires e == k + |a| + |b| && e <= |s| && s[k..e] == a + b
    ensures s[k..k + |a|] == a && s[k + |a|..e] == b
  {
    assert s[k..k + |a|] == s[k..e][..|a|];
    assert s[k + |a|..e] == s[k..e][|a|..];
  }

  /** With no placeholder open, characters that do not open one, a lone `$` among them, are passed over. */
  lemma {:induction false} ScanText(s: string, k: nat, n: nat, st: Scan)
    requires k + n <= |s| && st.last.None?
    requires forall i :: k <= i < k + n ==> !OpensAt(s, i)
    ensures ScanFrom(s, k, st) == ScanFrom(s, k + n, st)
    decreases n
  {
    if n > 0 {
      ScanText(s, k + 1, n - 1, st);
    }
  }

  /** With a placeholder open, characters other than `$`, `{` and `}` are passed over. */
  lemma {:induction false} ScanKey(s: string, k: nat, n: nat, st: Scan)
    requires k + n <= |s| && st.last.Some?
    requires forall i :: k <= i < k + n ==> s[i] != '$' && s[i] != '{' && s[i] != '}'
    ensures ScanFrom(s, k, st) == ScanFrom(s, k + n, st)
    decreases n
  {
    if n > 0 {
      ScanKey(s, k + 1, n - 1, st);
    }
  }

  /** A placeholder with a free key is one opening and one closing. */
  lemma ScanHole(s: string, k: nat, key: string, st: Scan)
    requires k + |key| + 3 <= |s| && s[k..k + |key| + 3] == Placeholder(key)
    requires FreeKey(key) && st.last.None?
    ensures ScanFrom(s, k, st)
         == ScanFrom(s, k + |key| + 3, Scan(st.heads + [k], st.tails + [k + |key| + 2], None))
  {
    var p := Placeholder(key);
    assert s[k] == p[0] == '$' && s[k + 1] == p[1] == '{';
    assert s[k + |key| + 2] == p[|key| + 2] == '}';
    var open := Scan(st.heads + [k], st.tails, Some(k));
    assert forall i :: k + 2 <= i < k + 2 + |key| ==> s[i] == key[i - k - 2] by {
      forall i | k + 2 <= i < k + 2 + |key|
        ensures s[i] == key[i - k - 2]
      {
        assert s[i] == p[i - k];
      }
    }
    ScanKey(s, k + 2, |key|, open);
  }

  /** The scanner's state after piece `p`, which starts at `k`. */
  function Next(st: Scan, p: Piece, k: nat): Scan {
    match p
    case Text(_) => st
    case Hole(key) => Scan(st.heads + [k], st.tails + [k + |key| + 2], st.last)
  }

  /** The scanner's state after the text of `doc`, which starts at `k`, piece by piece. */
  function After(st: Scan, doc: seq<Piece>, k: nat): Scan
    decreases |doc|
  {
    if doc == [] then st else After(Next(st, doc[0], k), doc[1..], k + |Show(doc[0])|)
  }

  lemma Assoc(a: seq<nat>, b: seq<nat>, c: seq<nat>)
    ensures a + (b + c) == (a + b) + c
  {
  }

  /** Going over `doc` records the positions of its placeholders after those already recorded. */
  predicate Records(st: Scan, doc: seq<Piece>, k: nat) {
    After(st, doc, k).heads == st.heads + HeadsOf(doc, k)
    && After(st, doc, k).tails == st.tails + TailsOf(doc, k)
    && After(st, doc, k).last == st.last
  }

  lemma {:induction false} AfterRecords(st: Scan, doc: seq<Piece>, k: nat)
    ensures Records(st, doc, k)
    decreases |doc|
  {
    if doc == [] {
      assert st.heads + [] == st.heads && st.tails + [] == st.tails;
    } else {
      AfterRecords(Next(st, doc[0], k), doc[1..], k + |Show(doc[0])|);
      RecordsStep(st, doc, k);
    }
  }

  /** One piece more: what the rest records, after what the first piece records. */
  lemma RecordsStep(st: Scan, doc: seq<Piece>, k: nat)
    requires doc != [] && Records(Next(st, doc[0], k), doc[1..], k + |Show(doc[0])|)
    ensures Records(st, doc, k)
  {
    var rest, k' := doc[1..], k + |Show(doc[0])|;
    var st' := Next(st, doc[0], k);
    var hs, ts := HeadsOf(rest, k'), TailsOf(rest, k');
    var b := After(st', rest, k');
    assert After(st, doc, k) == b;
    DocCons(doc, k, k');
    if doc[0].Hole? {
      var t := k + |doc[0].key| + 2;
      assert st'.heads == st.heads + [k] && st'.tails == st.tails + [t];
      Assoc(st.heads, [k], hs);
      Assoc(st.tails, [t], ts);
      assert b.heads == st.heads + HeadsOf(doc, k);
      assert b.tails == st.tails + TailsOf(doc, k);
    } else {
      assert st' == st;
    }
  }

  /** From the start, going over `doc` records exactly its placeholders. */
  lemma AfterStart(doc: seq<Piece>)
    ensures After(Start, doc, 0) == Scan(HeadsOf(doc, 0), TailsOf(doc, 0), None)
  {
    AfterRecords(Start, doc, 0);
    assert [] + HeadsOf(doc, 0) == HeadsOf(doc, 0);
    assert [] + TailsOf(doc, 0) == TailsOf(doc, 0);
  }

  /** Scanning one piece of a plain template. */
  lemma ScanPiece(s: string, k: nat, p: Piece, st: Scan)
    requires k + |Show(p)| <= |s| && s[k..k + |Show(p)|] == Show(p)
    requires (match p case Text(t) => FreeText(t) case Hole(key) => FreeKey(key)) && st.last.None?
    ensures ScanFrom(s, k, st) == ScanFrom(s, k + |Show(p)|, Next(st, p, k))
  {
    match p
    case Text(t) =>
      FreeTextNoOpen(s, k, t);
      ScanText(s, k, |t|, st);
    case Hole(key) =>
      ScanHole(s, k, key, st);
  }

  /** Scanning the text of a plain `doc`, which ends at `e`, records exactly its placeholders. */
  lemma {:induction false} ScanDoc(s: string, k: nat, doc: seq<Piece>, st: Scan, e: nat)
    requires e == k + |Flat(doc)| && e <= |s| && s[k..e] == Flat(doc)
    requires Plain(doc) && st.last.None?
    ensures ScanFrom(s, k, st) == ScanFrom(s, e, After(st, doc, k))
    decreases |doc|
  {
    if doc != [] {
      var k' := k + |Show(doc[0])|;
      ScanFirst(s, k, doc, st, e);
      ScanDoc(s, k', doc[1..], Next(st, doc[0], k), e);
    }
  }

  /** Scanning the first piece of a plain `doc`; the rest is plain and laid out after it up to `e`. */
  lemma ScanFirst(s: string, k: nat, doc: seq<Piece>, st: Scan, e: nat)
    requires e == k + |Flat(doc)| && e <= |s| && s[k..e] == Flat(doc)
    requires Plain(doc) && st.last.None? && doc != []
    ensures ScanFrom(s, k, st) == ScanFrom(s, k + |Show(doc[0])|, Next(st, doc[0], k))
    ensures e == k + |Show(doc[0])| + |Flat(doc[1..])| && s[k + |Show(doc[0])|..e] == Flat(doc[1..])
    ensures Plain(doc[1..]) && Next(st, doc[0], k).last.None?
  {
    DocStep(s, k, doc, e);
    PlainStep(doc);
    ScanPiece(s, k, doc[0], st);
  }

  /** The first piece of `doc` laid out in `s` at `k`, and the rest after it. */
  lemma DocStep(s: string, k: nat, doc: seq<Piece>, e: nat)
    requires e == k + |Flat(doc)| && e <= |s| && s[k..e] == Flat(doc)
    requires doc != []
    ensures var a := Show(doc[0]);
      k + |a| + |Flat(doc[1..])| == e && s[k..k + |a|] == a && s[k + |a|..e] == Flat(doc[1..])
  {
    var a, b := Show(doc[0]), Flat(doc[1..]);
    assert Flat(doc) == a + b;
    SliceSplit(s, k, e, a, b);
  }

  /** The first piece of a plain `doc` is free, and the rest is plain. */
  lemma PlainStep(doc: seq<Piece>)
    requires Plain(doc) && doc != []
    ensures Plain(doc[1..])
    ensures match doc[0] case Text(t) => FreeText(t) case Hole(key) => FreeKey(key)
  {
  }

  /** Whether any key is a single byte. */
  predicate AnyOneByte(keys: seq<string>) {
    exists i :: 0 <= i < |keys| && OneByte(keys[i])
  }

  lemma AnyOneByteCons(key: string, keys: seq<string>)
    ensures AnyOneByte([key] + keys) <==> OneByte(key) || AnyOneByte(keys)
  {
    var all := [key] + keys;
    if OneByte(key) {
      assert all[0] == key;
    }
    if AnyOneByte(keys) {
      var i :| 0 <= i < |keys| && OneByte(keys[i]);
      assert all[i + 1] == keys[i];
    }
    if AnyOneByte(all) {
      var i :| 0 <= i < |all| && OneByte(all[i]);
      if i > 0 {
        assert keys[i - 1] == all[i];
      }
    }
  }

  lemma PairedCons(s: string, h: nat, t: nat, hs: seq<nat>, ts: seq<nat>)
    requires Paired(s, hs, ts) && h + 2 <= t <= |s|
    ensures Paired(s, [h] + hs, [t] + ts)
  {
    var h', t' := [h] + hs, [t] + ts;
    forall i | 0 <= i < |t'|
      ensures h'[i] + 2 <= t'[i] <= |s|
    {
      if i > 0 {
        assert h'[i] == hs[i - 1] && t'[i] == ts[i - 1];
      }
    }
  }

  /** The outcome of pairing, for the keys of a plain template. */
  function Outcome(keys: seq<string>): Result<seq<string>, TemplateError> {
    if AnyOneByte(keys) then Err(EmptyTemplate) else Ok(keys)
  }

  /** The characters of a placeholder written out at `k`. */
  lemma HoleChars(s: string, k: nat, key: string)
    requires k + |key| + 3 <= |s| && s[k..k + |key| + 3] == Placeholder(key)
    ensures s[k] == '$' && s[k + 1] == '{' && s[k + 2..k + |key| + 2] == key
  {
    var p := Placeholder(key);
    assert s[k] == p[0] && s[k + 1] == p[1];
    forall i | 0 <= i < |key|
      ensures s[k + 2..k + |key| + 2][i] == key[i]
    {
      assert s[k + 2 + i] == p[2 + i];
    }
  }

  /** Pairing a placeholder in front of pairs that already give `Outcome(keys)`. */
  lemma PairHole(s: string, k: nat, key: string, hs: seq<nat>, ts: seq<nat>, keys: seq<string>)
    requires k + |key| + 3 <= |s| && s[k] == '$' && s[k + 1] == '{' && s[k + 2..k + |key| + 2] == key
    requires Paired(s, hs, ts) && Pair(s, hs, ts) == Outcome(keys)
    ensures Paired(s, [k] + hs, [k + |key| + 2] + ts)
    ensures Pair(s, [k] + hs, [k + |key| + 2] + ts) == Outcome([key] + keys)
  {
    var t := k + |key| + 2;
    PairedCons(s, k, t, hs, ts);
    assert ([k] + hs)[1..] == hs && ([t] + ts)[1..] == ts;
    EmptyMeansOneByte(s, k, t);
    AnyOneByteCons(key, keys);
  }

  /** The positions and keys of `doc` are those of its first piece, then those of the rest. */
  lemma DocCons(doc: seq<Piece>, k: nat, k': nat)
    requires doc != [] && k' == k + |Show(doc[0])|
    ensures doc[0].Hole? ==>
      (HeadsOf(doc, k) == [k] + HeadsOf(doc[1..], k')
       && TailsOf(doc, k) == [k + |doc[0].key| + 2] + TailsOf(doc[1..], k')
       && HolesOf(doc) == [doc[0].key] + HolesOf(doc[1..]))
    ensures doc[0].Text? ==>
      (HeadsOf(doc, k) == HeadsOf(doc[1..], k')
       && TailsOf(doc, k) == TailsOf(doc[1..], k') && HolesOf(doc) == HolesOf(doc[1..]))
  {
  }

  /** `s` holds the pieces of `doc` one after the other from `k` on. */
  predicate At(s: string, k: nat, doc: seq<Piece>)
    decreases |doc|
  {
    doc == [] ||
    (k + |Show(doc[0])| <= |s| && s[k..k + |Show(doc[0])|] == Show(doc[0])
     && At(s, k + |Show(doc[0])|, doc[1..]))
  }

  lemma {:induction false} FlatAt(s: string, k: nat, doc: seq<Piece>, e: nat)
    requires e == k + |Flat(doc)| && e <= |s| && s[k..e] == Flat(doc)
    ensures At(s, k, doc)
    decreases |doc|
  {
    if doc != [] {
      var k' := k + |Show(doc[0])|;
      DocStep(s, k, doc, e);
      FlatAt(s, k', doc[1..], e);
      assert At(s, k', doc[1..]);
    }
  }

  /** Pairing the placeholders of `doc` gives its keys, unless one is a single byte. */
  lemma {:induction false} PairDoc(s: string, k: nat, doc: seq<Piece>)
    requires At(s, k, doc)
    ensures Paired(s, HeadsOf(doc, k), TailsOf(doc, k))
    ensures Pair(s, HeadsOf(doc, k), TailsOf(doc, k)) == Outcome(HolesOf(doc))
    decreases |doc|
  {
    if doc != [] {
      var k' := k + |Show(doc[0])|;
      PairDoc(s, k', doc[1..]);
      DocCons(doc, k, k');
      if doc[0].Hole? {
        HoleChars(s, k, doc[0].key);
        PairHole(s, k, doc[0].key, HeadsOf(doc[1..], k'), TailsOf(doc[1..], k'), HolesOf(doc[1..]));
      }
    }
  }

  /**
   * `find_keys` on the text of a plain `doc`: its keys in order, or
   * `EmptyTemplate` exactly when one of them is a single byte.
   */
  lemma KeysOfDoc(doc: seq<Piece>)
    requires Plain(doc)
    ensures Keys(Flat(doc)) == Outcome(HolesOf(doc))
  {
    var s := Flat(doc);
    var fin := Scan(HeadsOf(doc, 0), TailsOf(doc, 0), None);
    assert s[0..|s|] == s;
    FlatAt(s, 0, doc, |s|);
    assert ScanFrom(s, 0, Start) == Ok(fin) by {
      ScanDoc(s, 0, doc, Start, |s|);
      AfterStart(doc);
    }
    PairDoc(s, 0, doc);
    KeysFrom(s, fin);
  }

  /** When the scan ends with as many closings as openings, the keys are what pairing them gives. */
  lemma KeysFrom(s: string, fin: Scan)
    requires ScanFrom(s, 0, Start) == Ok(fin) && |fin.heads| == |fin.tails| && Paired(s, fin.heads, fin.tails)
    ensures Keys(s) == Pair(s, fin.heads, fin.tails)
  {
  }

  // ------------------------------------------------------------- substitution

  /** A piece with its placeholder filled in, when `env` binds its key. */
  function FillPiece(p: Piece, env: Env): Piece {
    if p.Hole? && p.key in env then Text(env[p.key]) else p
  }

  /** Every placeholder whose key `env` binds replaced by the value; the others kept. */
  function Fill(doc: seq<Piece>, env: Env): (r: seq<Piece>)
    ensures |r| == |doc|
    decreases |doc|
  {
    if doc == [] then [] else [FillPiece(doc[0], env)] + Fill(doc[1..], env)
  }

  /**
   * Values that never start a placeholder, alone or with the text after them.
   * `apply` replaces key after key in the text it has already filled, so a
   * value holding `${other}` would itself be filled later (`ResubstitutedValue`).
   */
  predicate FreeValues(env: Env) {
    forall k :: k in env ==> FreeText(env[k])
  }

  /** Free text is passed over by `Replace` of a `${key}`. */
  lemma {:induction false} ReplaceFree(t: string, r: string, pat: string, v: string)
    requires |pat| >= 2 && pat[0] == '$' && pat[1] == '{' && FreeText(t)
    ensures Replace(t + r, pat, v) == t + Replace(r, pat, v)
    decreases |t|
  {
    var s := t + r;
    if t == [] {
      assert s == r;
    } else if |s| >= |pat| {
      assert !StartsWith(s, pat) by {
        assert s[..|pat|][0] == s[0] == t[0];
        if t[0] == '$' {
          assert s[..|pat|][1] == s[1] == t[1] != '{';
        }
      }
      assert Replace(s[1..], pat, v) == t[1..] + Replace(r, pat, v) by {
        FreeTextTail(t);
        assert s[1..] == t[1..] + r;
        ReplaceFree(t[1..], r, pat, v);
      }
      assert Replace(s, pat, v) == [s[0]] + Replace(s[1..], pat, v);
      assert t == [t[0]] + t[1..];
    }
  }

  /** Free text stays free without its first character. */
  lemma FreeTextTail(t: string)
    requires t != [] && FreeText(t)
    ensures FreeText(t[1..])
  {
    forall i | 0 <= i < |t[1..]| && t[1..][i] == '$'
      ensures i + 1 < |t[1..]| && t[1..][i + 1] != '{'
    {
      assert t[i + 1] == '$';
    }
  }

  /** A placeholder without its `$` is free text. */
  lemma KeyTextFree(key: string)
    requires FreeKey(key)
    ensures FreeText("{" + key + "}")
  {
    var t := "{" + key + "}";
    assert forall i :: 0 <= i < |t| ==> t[i] != '$';
  }

  /** A placeholder for the key being replaced becomes the value. */
  lemma ReplaceHit(key: string, r: string, v: string)
    ensures Replace(Placeholder(key) + r, Placeholder(key), v) == v + Replace(r, Placeholder(key), v)
  {
    var p := Placeholder(key);
    assert (p + r)[..|p|] == p && (p + r)[|p|..] == r;
  }

  /** The text of another free key's placeholder does not start with this key's placeholder. */
  lemma PlaceholderMismatch(key: string, other: string, r: string)
    requires FreeKey(key) && FreeKey(other) && key != other
    ensures !StartsWith(Placeholder(other) + r, Placeholder(key))
  {
    var pat, s := Placeholder(key), Placeholder(other) + r;
    if |pat| <= |s| {
      var n, m := |key|, |other|;
      if n < m {
        assert s[2 + n] == other[n] != '}' && pat[2 + n] == '}';
        assert s[..|pat|][2 + n] == s[2 + n];
      } else if n > m {
        assert s[2 + m] == '}' && pat[2 + m] == key[m] != '}';
        assert s[..|pat|][2 + m] == s[2 + m];
      } else {
        var i :| 0 <= i < n && key[i] != other[i];
        assert s[2 + i] == other[i] && pat[2 + i] == key[i];
        assert s[..|pat|][2 + i] == s[2 + i];
      }
    }
  }

  /** A placeholder for another free key is not a match: it is kept as it was. */
  lemma ReplaceMiss(key: string, other: string, r: string, v: string)
    requires FreeKey(key) && FreeKey(other) && key != other
    ensures Replace(Placeholder(other) + r, Placeholder(key), v)
         == Placeholder(other) + Replace(r, Placeholder(key), v)
  {
    var pat, q := Placeholder(key), Placeholder(other);
    var s := q + r;
    if |s| >= |pat| {
      var rest := "{" + other + "}";
      assert Replace(s[1..], pat, v) == rest + Replace(r, pat, v) by {
        assert s[1..] == rest + r;
        KeyTextFree(other);
        ReplaceFree(rest, r, pat, v);
      }
      assert Replace(s, pat, v) == [s[0]] + Replace(s[1..], pat, v) by {
        PlaceholderMismatch(key, other, r);
      }
      assert q == [s[0]] + rest;
    }
  }

  /** `Replace` of one key's placeholder fills exactly that key's placeholders. */
  lemma {:induction false} ReplaceDoc(doc: seq<Piece>, key: string, v: string)
    requires Plain(doc) && FreeKey(key)
    ensures Replace(Flat(doc), Placeholder(key), v) == Flat(Fill(doc, map[key := v]))
    decreases |doc|
  {
    if doc != [] {
      var rest, pat, e := doc[1..], Placeholder(key), map[key := v];
      ReplaceDoc(rest, key, v);
      assert Fill(doc, e)[1..] == Fill(rest, e);
      match doc[0]
      case Text(t) =>
        ReplaceFree(t, Flat(rest), pat, v);
      case Hole(other) =>
        if other == key {
          ReplaceHit(key, Flat(rest), v);
        } else {
          ReplaceMiss(key, other, Flat(rest), v);
        }
    }
  }

  /** Filling with free values keeps a template plain. */
  lemma {:induction false} FillPlain(doc: seq<Piece>, env: Env)
    requires Plain(doc) && FreeValues(env)
    ensures Plain(Fill(doc, env))
    decreases |doc|
  {
    if doc != [] {
      FillPlain(doc[1..], env);
      assert Fill(doc, env)[1..] == Fill(doc[1..], env);
    }
  }

  /** Filling the holes `a` left with one more binding, which `a` agrees with. */
  lemma {:induction false} FillMore(doc: seq<Piece>, a: Env, key: string, v: string)
    requires key in a ==> a[key] == v
    ensures Fill(Fill(doc, a), map[key := v]) == Fill(doc, a[key := v])
    decreases |doc|
  {
    if doc != [] {
      FillMore(doc[1..], a, key, v);
      assert Fill(doc, a)[1..] == Fill(doc[1..], a);
    }
  }

  /** `env` cut down to the keys in `ks`. */
  function Restrict(env: Env, ks: set<string>): (r: Env)
    ensures r.Keys == env.Keys * ks
  {
    map k | k in env && k in ks :: env[k]
  }

  /** The keys of a sequence, as a set. */
  function KeySet(keys: seq<string>): (r: set<string>)
    ensures forall k :: k in r <==> k in keys
  {
    set k | k in keys
  }

  /**
   * The `apply` loop, having filled the keys in `done`, fills the rest of
   * `keys` in turn.
   */
  lemma {:induction false} ApplyDoc(doc: seq<Piece>, done: set<string>, keys: seq<string>, env: Env)
    requires Plain(doc) && FreeValues(env)
    requires forall i :: 0 <= i < |keys| ==> FreeKey(keys[i])
    ensures ApplyFrom(Flat(Fill(doc, Restrict(env, done))), keys, env)
         == Flat(Fill(doc, Restrict(env, done + KeySet(keys))))
    decreases |keys|
  {
    var before := Restrict(env, done);
    if keys == [] {
      assert done + KeySet(keys) == done;
    } else {
      var key := keys[0];
      var done' := done + {key};
      FillPlain(doc, before);
      if key in env {
        ReplaceDoc(Fill(doc, before), key, env[key]);
        FillMore(doc, before, key, env[key]);
        assert before[key := env[key]] == Restrict(env, done');
      } else {
        assert before == Restrict(env, done');
      }
      ApplyDoc(doc, done', keys[1..], env);
      assert done' + KeySet(keys[1..]) == done + KeySet(keys);
    }
  }

  /** Filling with an environment cut down to a set holding every key of `doc`. */
  lemma {:induction false} FillRestrict(doc: seq<Piece>, env: Env, ks: set<string>)
    requires forall i :: 0 <= i < |HolesOf(doc)| ==> HolesOf(doc)[i] in ks
    ensures Fill(doc, Restrict(env, ks)) == Fill(doc, env)
    decreases |doc|
  {
    if doc != [] {
      DocCons(doc, 0, |Show(doc[0])|);
      var hs := HolesOf(doc[1..]);
      if doc[0].Hole? {
        assert HolesOf(doc)[0] == doc[0].key;
        assert forall i :: 0 <= i < |hs| ==> hs[i] == HolesOf(doc)[i + 1];
      }
      FillRestrict(doc[1..], env, ks);
      assert FillPiece(doc[0], Restrict(env, ks)) == FillPiece(doc[0], env);
    }
  }

  lemma {:induction false} FillEmpty(doc: seq<Piece>)
    ensures Fill(doc, map[]) == doc
    decreases |doc|
  {
    if doc != [] {
      FillEmpty(doc[1..]);
    }
  }

  /**
   * `SimpleTemplate::apply` on the text of a plain template, with free values
   * (none of which spells a placeholder): each bound placeholder is replaced by its value and each
   * unbound one kept, unless a one-byte key makes the parse fail.
   */
  lemma SubstituteDoc(doc: seq<Piece>, env: Env)
    requires Plain(doc) && FreeValues(env)
    ensures Substitute(Flat(doc), env)
         == if AnyOneByte(HolesOf(doc)) then Err(EmptyTemplate) else Ok(Flat(Fill(doc, env)))
  {
    KeysOfDoc(doc);
    if !AnyOneByte(HolesOf(doc)) {
      var keys := HolesOf(doc);
      PlainKeys(doc);
      assert Restrict(env, {}) == map[];
      FillEmpty(doc);
      ApplyDoc(doc, {}, keys, env);
      FillRestrict(doc, env, {} + KeySet(keys));
    }
  }

  /** The keys of a plain template are free keys. */
  lemma {:induction false} PlainKeys(doc: seq<Piece>)
    requires Plain(doc)
    ensures forall i :: 0 <= i < |HolesOf(doc)| ==> FreeKey(HolesOf(doc)[i])
    decreases |doc|
  {
    if doc != [] {
      PlainKeys(doc[1..]);
      DocCons(doc, 0, |Show(doc[0])|);
    }
  }

  // ------------------------------------------------------------ refused texts

  /** A `${` followed by a free key: the placeholder is open at the end of the key. */
  lemma ScanOpen(s: string, k: nat, key: string, st: Scan)
    requires k + 2 + |key| <= |s| && s[k] == '$' && s[k + 1] == '{' && s[k + 2..k + 2 + |key|] == key
    requires FreeKey(key)
    ensures ScanFrom(s, k, st) == ScanFrom(s, k + 2 + |key|, Scan(st.heads + [k], st.tails, Some(k)))
  {
    assert forall i :: k + 2 <= i < k + 2 + |key| ==> s[i] == s[k + 2..k + 2 + |key|][i - k - 2];
    ScanKey(s, k + 2, |key|, Scan(st.heads + [k], st.tails, Some(k)));
  }

  /** Where the plain template `doc` leaves the scanner, at the start of `s`. */
  lemma ScanPrefix(s: string, doc: seq<Piece>, e: nat)
    requires Plain(doc) && e == |Flat(doc)| && e <= |s| && s[..e] == Flat(doc)
    ensures ScanFrom(s, 0, Start) == ScanFrom(s, e, Scan(HeadsOf(doc, 0), TailsOf(doc, 0), None))
  {
    assert s[0..e] == s[..e];
    ScanDoc(s, 0, doc, Start, e);
    AfterStart(doc);
  }

  /** A `{` inside an open placeholder: `NestedTemplates`, whatever follows. */
  lemma NestedRefused(doc: seq<Piece>, key: string, rest: string)
    requires Plain(doc) && FreeKey(key)
    ensures Keys(Flat(doc) + "${" + key + "{" + rest) == Err(NestedTemplates)
  {
    var pre := Flat(doc);
    var s, e := pre + "${" + key + "{" + rest, |pre|;
    assert s[..e] == pre && s[e] == '$' && s[e + 1] == '{' && s[e + 2 + |key|] == '{';
    assert s[e + 2..e + 2 + |key|] == key;
    ScanPrefix(s, doc, e);
    ScanOpen(s, e, key, Scan(HeadsOf(doc, 0), TailsOf(doc, 0), None));
  }

  /** A placeholder never closed: `NonTerminated`. */
  lemma UnclosedRefused(doc: seq<Piece>, key: string)
    requires Plain(doc) && FreeKey(key)
    ensures Keys(Flat(doc) + "${" + key) == Err(NonTerminated)
  {
    var pre := Flat(doc);
    var s, e := pre + "${" + key, |pre|;
    assert s[..e] == pre && s[e] == '$' && s[e + 1] == '{';
    assert s[e + 2..e + 2 + |key|] == key;
    ScanPrefix(s, doc, e);
    ScanOpen(s, e, key, Scan(HeadsOf(doc, 0), TailsOf(doc, 0), None));
  }

  /** The scan from a `${` whose key holds another whole placeholder, then free text. */
  lemma ReopenScan(s: string, e: nat, a: string, b: string, st: Scan)
    requires e + 2 + |a| + |b| + 3 <= |s| && FreeKey(a) && FreeKey(b)
    requires s[e] == '$' && s[e + 1] == '{' && s[e + 2..e + 2 + |a|] == a
    requires s[e + 2 + |a|..e + 2 + |a| + |b| + 3] == Placeholder(b)
    requires forall i :: e + |a| + |b| + 5 <= i < |s| ==> !OpensAt(s, i)
    ensures ScanFrom(s, e, st)
         == Ok(Scan(st.heads + [e] + [e + 2 + |a|], st.tails + [e + |a| + |b| + 4], None))
  {
    var e' := e + 2 + |a|;
    ScanOpen(s, e, a, st);
    HoleChars(s, e', b);
    ScanOpen(s, e', b, Scan(st.heads + [e], st.tails, Some(e)));
    var f := e' + |b| + 2;
    assert s[f] == Placeholder(b)[|b| + 2] == '}';
    var done := Scan(st.heads + [e] + [e'], st.tails + [f], None);
    ScanText(s, f + 1, |s| - f - 1, done);
  }

  /**
   * A `${` inside an open placeholder opens another one: once the second is
   * closed the first is still counted, and the text is `NonTerminated`.
   */
  lemma ReopenRefused(doc: seq<Piece>, a: string, b: string, rest: string)
    requires Plain(doc) && FreeKey(a) && FreeKey(b) && FreeText(rest)
    ensures Keys(Flat(doc) + "${" + a + Placeholder(b) + rest) == Err(NonTerminated)
  {
    var pre := Flat(doc);
    var s, e := pre + "${" + a + Placeholder(b) + rest, |pre|;
    ReopenLayout(pre, a, b, rest);
    ScanPrefix(s, doc, e);
    ReopenScan(s, e, a, b, Scan(HeadsOf(doc, 0), TailsOf(doc, 0), None));
  }

  lemma ReopenLayout(pre: string, a: string, b: string, rest: string)
    requires FreeText(rest)
    ensures var s, e := pre + "${" + a + Placeholder(b) + rest, |pre|;
      var e' := e + 2 + |a|;
      |s| == e' + |b| + 3 + |rest|
      && s[..e] == pre && s[e] == '$' && s[e + 1] == '{'
      && s[e + 2..e'] == a && s[e'..e' + |b| + 3] == Placeholder(b)
      && forall i :: e' + |b| + 3 <= i < |s| ==> !OpensAt(s, i)
  {
    var s, e := pre + "${" + a + Placeholder(b) + rest, |pre|;
    var e' := e + 2 + |a|;
    assert s[..e] == pre;
    assert s[e + 2..e'] == a;
    assert s[e'..e' + |b| + 3] == Placeholder(b);
    assert s[e' + |b| + 3..] == rest;
    FreeTextNoOpen(s, e' + |b| + 3, rest);
  }

  /** `${}` is accepted, with the empty key. */
  lemma EmptyKeyAccepted()
    ensures Keys("${}") == Ok([""])
  {
    var doc := [Hole("")];
    assert Flat(doc) == "${}";
    KeysOfDoc(doc);
    assert HolesOf(doc) == [""];
  }

  /** A key of one ASCII character is refused as an empty template. */
  lemma AsciiKeyRefused(c: char)
    requires c < '\U{80}' && FreeKey([c])
    ensures Keys("${" + [c] + "}") == Err(EmptyTemplate)
  {
    var doc := [Hole([c])];
    assert Flat(doc) == "${" + [c] + "}";
    KeysOfDoc(doc);
    assert OneByte(HolesOf(doc)[0]);
  }

  /** A key of one character wider than a byte is accepted. */
  lemma WideKeyAccepted(c: char)
    requires c >= '\U{80}'
    ensures Keys("${" + [c] + "}") == Ok([[c]])
  {
    var doc := [Hole([c])];
    assert Flat(doc) == "${" + [c] + "}";
    KeysOfDoc(doc);
    assert HolesOf(doc) == [[c]];
  }

  // ------------------------------------------------------------ lone dollars and re-substitution

  /** A `$` that does not open a placeholder is passed over by the scanner. */
  lemma LoneDollarPassed(s: string, k: nat, st: Scan)
    requires k < |s| && s[k] == '$' && !OpensAt(s, k)
    ensures ScanFrom(s, k, st) == ScanFrom(s, k + 1, st)
  {
  }

  /** Text whose one `$` is followed by a character other than `{`. */
  lemma LoneDollarFree(pre: string, c: char, post: string)
    requires '$' !in pre && '$' !in post && c != '{' && c != '$'
    ensures FreeText(pre + "$" + [c] + post)
  {
  }

  /**
   * Text holding lone `$` signs, followed by one placeholder: the key is found,
   * and the value takes the placeholder's place while the text stays.
   */
  lemma TextBeforeHole(t: string, key: string, v: string)
    requires FreeText(t) && FreeKey(key) && !OneByte(key) && FreeText(v)
    ensures Keys(t + Placeholder(key)) == Ok([key])
    ensures Substitute(t + Placeholder(key), map[key := v]) == Ok(t + v)
  {
    var doc, env := [Text(t), Hole(key)], map[key := v];
    assert doc[1..] == [Hole(key)] && doc[1..][1..] == [];
    assert Flat(doc) == t + Placeholder(key) by {
      assert Flat(doc[1..]) == Placeholder(key) + [];
    }
    assert HolesOf(doc) == [key];
    assert Plain(doc);
    KeysOfDoc(doc);
    SubstituteDoc(doc, env);
    assert Fill(doc, env) == [Text(t), Text(v)] by {
      assert Fill(doc, env)[1..] == Fill(doc[1..], env);
    }
    assert Flat([Text(t), Text(v)]) == t + v by {
      assert [Text(t), Text(v)][1..] == [Text(v)];
      assert [Text(v)][1..] == [];
    }
  }

  /** `costs $5, ${name}` keeps its lone `$` and fills its one placeholder. */
  lemma DollarKept(s: string)
    requires s == "costs $5, ${name}"
    ensures Keys(s) == Ok(["name"])
    ensures Substitute(s, map["name" := "bob"]) == Ok("costs $5, bob")
  {
    LoneDollarFree("costs ", '5', ", ");
    assert "costs " + "$" + ['5'] + ", " == "costs $5, ";
    assert "costs $5, " + Placeholder("name") == s;
    assert "costs $5, " + "bob" == "costs $5, bob";
    TextBeforeHole("costs $5, ", "name", "bob");
  }

  /**
   * Keys are replaced one after another in the text already filled, so a
   * value that spells a later placeholder is filled in its turn.
   */
  lemma Resubstituted(a: string, sep: string, b: string, v: string)
    requires FreeKey(a) && FreeKey(b) && a != b && !OneByte(a) && !OneByte(b)
    requires FreeText(sep) && FreeText(v)
    ensures Substitute(Placeholder(a) + sep + Placeholder(b), map[a := Placeholder(b), b := v])
         == Ok(v + sep + v)
  {
    var env := map[a := Placeholder(b), b := v];
    var doc := [Hole(a), Text(sep), Hole(b)];
    FlatThree(Hole(a), Text(sep), Hole(b));
    TwoHoles(a, sep, b);
    KeysOfDoc(doc);
    var s, keys := Flat(doc), [a, b];
    assert Keys(s) == Ok(keys) by {
      AnyOneByteCons(a, [b]);
      AnyOneByteCons(b, []);
    }
    var once := Replace(s, Placeholder(a), Placeholder(b));
    assert once == Placeholder(b) + sep + Placeholder(b) by {
      ReplaceDoc(doc, a, Placeholder(b));
      FillThree(Hole(a), Text(sep), Hole(b), map[a := Placeholder(b)]);
      FlatThree(Text(Placeholder(b)), Text(sep), Hole(b));
    }
    var twice := Replace(once, Placeholder(b), v);
    assert twice == v + sep + v by {
      var doc' := [Hole(b), Text(sep), Hole(b)];
      FlatThree(Hole(b), Text(sep), Hole(b));
      TwoHoles(b, sep, b);
      ReplaceDoc(doc', b, v);
      FillThree(Hole(b), Text(sep), Hole(b), map[b := v]);
      FlatThree(Text(v), Text(sep), Text(v));
    }
    assert keys[1..] == [b] && keys[1..][1..] == [];
    assert ApplyFrom(once, [b], env) == ApplyFrom(twice, [], env);
  }

  /** Two placeholders around free text make a plain template. */
  lemma TwoHoles(a: string, sep: string, b: string)
    requires FreeKey(a) && FreeKey(b) && FreeText(sep)
    ensures Plain([Hole(a), Text(sep), Hole(b)]) && HolesOf([Hole(a), Text(sep), Hole(b)]) == [a, b]
  {
    var doc := [Hole(a), Text(sep), Hole(b)];
    assert doc[1..] == [Text(sep), Hole(b)] && doc[1..][1..] == [Hole(b)] && doc[1..][1..][1..] == [];
    assert Plain(doc[1..][1..]) && Plain(doc[1..]);
    assert HolesOf(doc[1..][1..]) == [b] + [];
  }

  /** The text of three pieces. */
  lemma FlatThree(p: Piece, q: Piece, r: Piece)
    ensures Flat([p, q, r]) == Show(p) + Show(q) + Show(r)
  {
    assert [p, q, r][1..] == [q, r] && [q, r][1..] == [r] && [r][1..] == [];
    assert Flat([r]) == Show(r) + [];
  }

  /** Three pieces filled one by one. */
  lemma FillThree(p: Piece, q: Piece, r: Piece, env: Env)
    ensures Fill([p, q, r], env) == [FillPiece(p, env), FillPiece(q, env), FillPiece(r, env)]
  {
    assert [p, q, r][1..] == [q, r] && [q, r][1..] == [r] && [r][1..] == [];
    assert Fill([r], env) == [FillPiece(r, env)] + [];
    assert Fill([q, r], env) == [FillPiece(q, env)] + Fill([r], env);
  }

  /** `${name} ${channel}` with `name` bound to `${channel}` gives the channel twice. */
  lemma ResubstitutedValue(s: string, env: Env)
    requires s == "${name} ${channel}" && env == map["name" := "${channel}", "channel" := "#c"]
    ensures Substitute(s, env) == Ok("#c #c")
  {
    assert Placeholder("name") + " " + Placeholder("channel") == s;
    assert Placeholder("channel") == "${channel}";
    assert FreeText(" ") && FreeText("#c");
    assert FreeKey("name") && FreeKey("channel") && !OneByte("name") && !OneByte("channel");
    assert env == map["name" := Placeholder("channel"), "channel" := "#c"];
    assert "#c" + " " + "#c" == "#c #c";
    Resubstituted("name", " ", "channel", "#c");
  }
}
