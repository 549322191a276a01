/**
 * `TagsBuilder` (still_shaken/src/bot/test.rs): a map of IRC message tags
 * that can be filled from the tag prefix of a raw line (`@k=v;k=v rest`)
 * and rendered back into such a prefix.
 */
module Tags {
  import opened Wrappers
  import opened Text

  /** The tag text of a raw line: everything before the first space, without its leading `@`s. */
  function Body(raw: string): (r: string)
    requires ' ' in raw
    ensures ' ' !in r && (r == [] || r[0] != '@')
  {
    var i := Find(raw, ' ').value;
    FindFirst(raw, ' ');
    TrimStartMatchesSuffix(raw[..i], '@');
    var r := TrimStartMatches(raw[..i], '@');
    assert forall k :: 0 <= k < |r| ==> r[k] == raw[..i][i - |r| + k];
    r
  }

  /** A `k=v...` piece read as its first two `=`-separated parts; a piece without `=` gives nothing. */
  function PairOf(piece: string): (r: Option<(string, string)>)
  {
    var t := Split(piece, '=');
    if |t| >= 2 then Some((t[0], t[1])) else None
  }

  /** The pairs read from a sequence of pieces, in order, skipping those without `=`. */
  function PairsOf(pieces: seq<string>): (r: seq<(string, string)>)
    ensures |r| <= |pieces|
  {
    if pieces == [] then []
    else
      PairsOf(pieces[..|pieces| - 1]) + Listed(PairOf(pieces[|pieces| - 1]))
  }

  function Listed(o: Option<(string, string)>): seq<(string, string)> {
    match o
    case None => []
    case Some(p) => [p]
  }

  /** Every pair `merge_with` reads from `raw`, in order. */
  function Pairs(raw: string): seq<(string, string)>
    requires ' ' in raw
  {
    PairsOf(SplitTerminator(Body(raw), ';'))
  }

  /** `HashMap::extend`: the pairs are inserted in order, so a later pair overwrites an earlier one. */
  function Extend(m: map<string, string>, ps: seq<(string, string)>): map<string, string> {
    if ps == [] then m
    else Extend(m, ps[..|ps| - 1])[ps[|ps| - 1].0 := ps[|ps| - 1].1]
  }

  /** Every key named by `ks` is in `m`. */
  predicate Within(m: map<string, string>, ks: seq<string>) {
    forall i :: 0 <= i < |ks| ==> ks[i] in m
  }

  /** `ks` lists every key of `m` exactly once: one order in which a `HashMap` may be iterated. */
  predicate IsOrder(m: map<string, string>, ks: seq<string>) {
    Within(m, ks)
    && (forall k :: k in m ==> k in ks)
    && (forall i, j :: 0 <= i < j < |ks| ==> ks[i] != ks[j])
  }

  /** The `k=v` entries of `m` in the order `ks`. */
  function Entries(m: map<string, string>, ks: seq<string>): (r: seq<string>)
    requires Within(m, ks)
    ensures |r| == |ks|
  {
    seq(|ks|, i requires 0 <= i < |ks| => ks[i] + "=" + m[ks[i]])
  }

  /** What `build` produces when the map is iterated in the order `ks`. */
  function Render(m: map<string, string>, ks: seq<string>): string
    requires Within(m, ks)
  {
    if ks == [] then "" else "@" + Join(";", Entries(m, ks))
  }

  class TagsBuilder {
    var tags: map<string, string>

    /** `TagsBuilder::default()`. */
    constructor()
      ensures tags == map[]
    {
      tags := map[];
    }

    /** `add`: inserts the pair, overwriting any value the key had. */
    method Add(key: string, value: string)
      modifies this
      ensures tags == old(tags)[key := value]
    {
      tags := tags[key := value];
    }

    /**
     * `merge_with`: the line must hold a space, since the code unwraps the
     * search for one.
     */
    method MergeWith(raw: string)
      requires ' ' in raw
      modifies this
      ensures tags == Extend(old(tags), Pairs(raw))
    {
      var r := raw[..Find(raw, ' ').value];
      while |r| > 0 && r[0] == '@'
        invariant TrimStartMatches(r, '@') == Body(raw)
        decreases |r|
      {
        r := r[1..];
      }
      var pieces := SplitTerminator(r, ';');
      var j := 0;
      while j < |pieces|
        invariant 0 <= j <= |pieces|
        invariant tags == Extend(old(tags), PairsOf(pieces[..j]))
      {
        var t := Split(pieces[j], '=');
        PairsOfSnoc(pieces, j);
        if |t| >= 2 {
          ExtendSnoc(old(tags), PairsOf(pieces[..j]), (t[0], t[1]));
          tags := tags[t[0] := t[1]];
        } else {
          assert PairsOf(pieces[..j + 1]) == PairsOf(pieces[..j]);
        }
        j := j + 1;
      }
      assert pieces[..j] == pieces;
    }

    /**
     * `build`, with the map's iteration order given as `order`: the first
     * entry is preceded by `@` and every later one by `;`.
     */
    method Build(order: seq<string>) returns (s: string)
      requires IsOrder(tags, order)
      ensures s == Render(tags, order)
    {
      s := "";
      for i := 0 to |order|
        invariant s == Render(tags, order[..i])
        invariant s == [] <==> i == 0
      {
        var k := order[i];
        if s != [] {
          s := s + ";";
        } else {
          s := s + "@";
        }
        RenderSnoc(tags, order[..i], k);
        assert order[..i + 1] == order[..i] + [k];
        s := s + k + "=" + tags[k];
      }
      assert order[..|order|] == order;
    }
  }

  /** One more piece adds its pair, if it has one, at the end. */
  lemma PairsOfSnoc(pieces: seq<string>, j: nat)
    requires j < |pieces|
    ensures PairsOf(pieces[..j + 1]) == PairsOf(pieces[..j]) + Listed(PairOf(pieces[j]))
  {
    assert pieces[..j + 1][..j] == pieces[..j];
  }

  /** One more pair is inserted last. */
  lemma ExtendSnoc(m: map<string, string>, ps: seq<(string, string)>, p: (string, string))
    ensures Extend(m, ps + [p]) == Extend(m, ps)[p.0 := p.1]
  {
    assert (ps + [p])[..|ps|] == ps;
  }

  /** Rendering one more key appends its entry after `@` (first) or `;` (later). */
  lemma RenderSnoc(m: map<string, string>, ks: seq<string>, k: string)
    requires Within(m, ks) && k in m
    ensures Within(m, ks + [k])
    ensures Render(m, ks + [k]) == (if ks == [] then "@" else Render(m, ks) + ";") + k + "=" + m[k]
  {
    var ks' := ks + [k];
    assert Within(m, ks');
    assert Entries(m, ks') == Entries(m, ks) + [k + "=" + m[k]];
    if ks != [] {
      JoinSnoc(";", Entries(m, ks), k + "=" + m[k]);
    }
  }

  /** `build` gives `""` exactly when the map is empty. */
  lemma RenderEmpty(m: map<string, string>, ks: seq<string>)
    requires IsOrder(m, ks)
    ensures Render(m, ks) == "" <==> m == map[]
  {
    if ks == [] {
      assert forall k :: k in m ==> k in ks;
    } else {
      assert ks[0] in m;
    }
  }

  /** Keys and values that survive a round trip: no `;`, `=` or space, and no key starting with `@`. */
  predicate Clean(m: map<string, string>) {
    forall k :: k in m ==>
      Plain(k) && Plain(m[k]) && (k == [] || k[0] != '@')
  }

  predicate Plain(s: string) {
    ';' !in s && '=' !in s && ' ' !in s
  }

  /** A join of pieces without `c`, with a separator without `c`, holds no `c`. */
  lemma {:induction false} JoinAvoids(sep: string, parts: seq<string>, c: char)
    requires c !in sep && forall i :: 0 <= i < |parts| ==> c !in parts[i]
    ensures c !in Join(sep, parts)
  {
    if |parts| > 1 {
      JoinAvoids(sep, parts[1..], c);
      assert c !in parts[0];
    }
  }

  /** Each entry of a clean map is plain apart from its single `=`. */
  lemma EntryParts(m: map<string, string>, ks: seq<string>)
    requires Within(m, ks) && Clean(m)
    ensures forall i :: 0 <= i < |ks| ==>
      ';' !in Entries(m, ks)[i] && ' ' !in Entries(m, ks)[i] && '=' in Entries(m, ks)[i]
  {
    forall i | 0 <= i < |ks|
      ensures ';' !in Entries(m, ks)[i] && ' ' !in Entries(m, ks)[i] && '=' in Entries(m, ks)[i]
    {
      var e := Entries(m, ks)[i];
      assert e == ks[i] + "=" + m[ks[i]];
      assert e[|ks[i]|] == '=';
    }
  }

  /** The tag text read back from a rendered, non-empty map is the joined entries. */
  lemma BodyOfRender(m: map<string, string>, ks: seq<string>, rest: string)
    requires Within(m, ks) && Clean(m) && ks != []
    ensures ' ' in Render(m, ks) + " " + rest
    ensures Body(Render(m, ks) + " " + rest) == Join(";", Entries(m, ks))
  {
    var s := Render(m, ks);
    RenderNoSpace(m, ks);
    BodyAfter(s, rest);
    RenderTrimmed(m, ks);
  }

  lemma RenderNoSpace(m: map<string, string>, ks: seq<string>)
    requires Within(m, ks) && Clean(m) && ks != []
    ensures ' ' !in Render(m, ks)
  {
    var es := Entries(m, ks);
    var j := Join(";", es);
    var s := Render(m, ks);
    EntryParts(m, ks);
    JoinAvoids(";", es, ' ');
    assert forall i :: 1 <= i < |s| ==> s[i] == j[i - 1];
  }

  /** The body of a word followed by a space is the word less its leading `@`s. */
  lemma BodyAfter(s: string, rest: string)
    requires ' ' !in s
    ensures ' ' in s + " " + rest
    ensures Body(s + " " + rest) == TrimStartMatches(s, '@')
  {
    var raw := s + " " + rest;
    FindAt(s, ' ', rest);
    assert raw == s + [' '] + rest;
    assert raw[..|s|] == s;
  }

  lemma RenderTrimmed(m: map<string, string>, ks: seq<string>)
    requires Within(m, ks) && Clean(m) && ks != []
    ensures TrimStartMatches(Render(m, ks), '@') == Join(";", Entries(m, ks))
  {
    var es := Entries(m, ks);
    var j := Join(";", es);
    var s := Render(m, ks);
    assert TrimStartMatches(s, '@') == TrimStartMatches(j, '@') by {
      assert s[1..] == j;
    }
    JoinHead(";", es);
    assert es[0] == ks[0] + "=" + m[ks[0]];
    assert j[..|es[0]|] == es[0];
    assert j[0] == es[0][0];
  }

  /** Splitting the joined entries at `;` gives the entries back; the last is never empty. */
  lemma SplitEntries(m: map<string, string>, ks: seq<string>)
    requires Within(m, ks) && Clean(m) && ks != []
    ensures SplitTerminator(Join(";", Entries(m, ks)), ';') == Entries(m, ks)
  {
    var es := Entries(m, ks);
    EntryParts(m, ks);
    SplitJoin(es, ';');
    assert Join([';'], es) == Join(";", es);
    assert es[|es| - 1] != [];
  }

  /** A piece `k=v` with plain `k` and `v` reads as the pair `(k, v)`. */
  lemma PairOfEntry(k: string, v: string)
    requires '=' !in k && '=' !in v
    ensures PairOf(k + "=" + v) == Some((k, v))
  {
    assert k + "=" + v == k + ['='] + v;
    SplitAtSeparator(k, '=', v);
    SplitNoSeparator(v, '=');
  }

  /** The pairs `(k, m[k])` for the keys `ks`, in order. */
  function KeyValues(m: map<string, string>, ks: seq<string>): (r: seq<(string, string)>)
    requires Within(m, ks)
    ensures |r| == |ks|
  {
    seq(|ks|, i requires 0 <= i < |ks| => (ks[i], m[ks[i]]))
  }

  /** Reading the entries of a clean map gives its key-value pairs. */
  lemma {:induction false} PairsOfEntries(m: map<string, string>, ks: seq<string>)
    requires Within(m, ks) && Clean(m)
    ensures PairsOf(Entries(m, ks)) == KeyValues(m, ks)
    decreases |ks|
  {
    if ks != [] {
      var n := |ks| - 1;
      EntriesSnoc(m, ks);
      PairsOfEntries(m, ks[..n]);
      PairOfEntry(ks[n], m[ks[n]]);
    }
  }

  /** Dropping the last key drops the last entry and the last pair. */
  lemma EntriesSnoc(m: map<string, string>, ks: seq<string>)
    requires Within(m, ks) && ks != []
    ensures var n := |ks| - 1;
      Within(m, ks[..n])
      && Entries(m, ks)[..n] == Entries(m, ks[..n])
      && Entries(m, ks)[n] == ks[n] + "=" + m[ks[n]]
      && KeyValues(m, ks) == KeyValues(m, ks[..n]) + [(ks[n], m[ks[n]])]
  {
  }

  /** The part of `m` on the keys `ks`. */
  function Restrict(m: map<string, string>, ks: seq<string>): (r: map<string, string>)
    ensures r.Keys <= m.Keys
    ensures forall k :: k in r ==> k in ks && r[k] == m[k]
  {
    map k | k in m && k in ks :: m[k]
  }

  /** Extending with the pairs of `m` on `ks` lays that part of `m` over the base. */
  lemma {:induction false} ExtendKeyValues(base: map<string, string>, m: map<string, string>, ks: seq<string>)
    requires Within(m, ks)
    ensures Extend(base, KeyValues(m, ks)) == base + Restrict(m, ks)
    decreases |ks|
  {
    if ks != [] {
      var n := |ks| - 1;
      var front := ks[..n];
      assert Within(m, front);
      ExtendKeyValues(base, m, front);
      var ps := KeyValues(m, ks);
      assert ps[..n] == KeyValues(m, front);
      assert ps[n] == (ks[n], m[ks[n]]);
      assert Extend(base, ps) == Extend(base, KeyValues(m, front))[ks[n] := m[ks[n]]];
      RestrictSnoc(base, m, ks);
    }
  }

  /** One more key lays one more entry of `m` over the base. */
  lemma RestrictSnoc(base: map<string, string>, m: map<string, string>, ks: seq<string>)
    requires Within(m, ks) && ks != []
    ensures var n := |ks| - 1;
      base + Restrict(m, ks) == (base + Restrict(m, ks[..n]))[ks[n] := m[ks[n]]]
  {
    var n := |ks| - 1;
    assert forall k :: k in ks <==> k in ks[..n] || k == ks[n];
  }

  /**
   * `merge_with(build(m) + " " + rest)` lays `m` over the builder's tags:
   * on an empty builder it gives back exactly `m`. `with_badge` relies on
   * this to copy a line's tags before adding its own.
   */
  lemma MergeBuilt(base: map<string, string>, m: map<string, string>, ks: seq<string>, rest: string)
    requires IsOrder(m, ks) && Clean(m)
    ensures ' ' in Render(m, ks) + " " + rest
    ensures Extend(base, Pairs(Render(m, ks) + " " + rest)) == base + m
  {
    if ks == [] {
      RenderEmpty(m, ks);
      MergeNothing(base, rest);
      assert base + m == base;
    } else {
      MergeSome(base, m, ks, rest);
    }
  }

  /** A line whose tag text is empty adds nothing. */
  lemma MergeNothing(base: map<string, string>, rest: string)
    ensures Extend(base, Pairs(" " + rest)) == base
  {
    var raw := " " + rest;
    assert raw == [] + [' '] + rest;
    FindAt([], ' ', rest);
    assert raw[..0] == [];
    assert Split([], ';') == [[]];
  }

  lemma MergeSome(base: map<string, string>, m: map<string, string>, ks: seq<string>, rest: string)
    requires IsOrder(m, ks) && Clean(m) && ks != []
    ensures ' ' in Render(m, ks) + " " + rest
    ensures Extend(base, Pairs(Render(m, ks) + " " + rest)) == base + m
  {
    BodyOfRender(m, ks, rest);
    SplitEntries(m, ks);
    PairsOfEntries(m, ks);
    ExtendKeyValues(base, m, ks);
    RestrictAll(m, ks);
  }

  /** Restricting `m` to a list of all its keys leaves it as it is. */
  lemma RestrictAll(m: map<string, string>, ks: seq<string>)
    requires IsOrder(m, ks)
    ensures Restrict(m, ks) == m
  {
    assert forall k :: k in m ==> k in Restrict(m, ks);
  }

  /** On an empty builder the round trip is exact. */
  lemma MergeBuiltFresh(m: map<string, string>, ks: seq<string>, rest: string)
    requires IsOrder(m, ks) && Clean(m)
    ensures ' ' in Render(m, ks) + " " + rest
    ensures Extend(map[], Pairs(Render(m, ks) + " " + rest)) == m
  {
    MergeBuilt(map[], m, ks, rest);
    EmptyUnion(m);
  }

  lemma EmptyUnion(m: map<string, string>)
    ensures map[] + m == m
  {
  }

  /** A key the pairs do not mention keeps its old value. */
  lemma {:induction false} ExtendKeeps(m: map<string, string>, ps: seq<(string, string)>, k: string)
    requires forall i :: 0 <= i < |ps| ==> ps[i].0 != k
    ensures k in Extend(m, ps) <==> k in m
    ensures k in m ==> Extend(m, ps)[k] == m[k]
    decreases |ps|
  {
    if ps != [] {
      ExtendKeeps(m, ps[..|ps| - 1], k);
    }
  }

  /** The last pair naming a key decides its value. */
  lemma {:induction false} ExtendLastWins(m: map<string, string>, ps: seq<(string, string)>, i: nat)
    requires i < |ps|
    requires forall j :: i < j < |ps| ==> ps[j].0 != ps[i].0
    ensures ps[i].0 in Extend(m, ps) && Extend(m, ps)[ps[i].0] == ps[i].1
    decreases |ps|
  {
    if i < |ps| - 1 {
      var front := ps[..|ps| - 1];
      assert front[i] == ps[i];
      ExtendLastWins(m, front, i);
    }
  }

  /** A piece `k=v=w` reads as `(k, v)`: whatever follows a second `=` is dropped. */
  lemma PairOfExtra(k: string, v: string, w: string)
    requires '=' !in k && '=' !in v
    ensures PairOf(k + "=" + v + "=" + w) == Some((k, v))
  {
    assert k + "=" + v + "=" + w == k + ['='] + (v + ['='] + w);
    SplitAtSeparator(k, '=', v + ['='] + w);
    SplitAtSeparator(v, '=', w);
  }

  /** A piece without `=` is skipped. */
  lemma PairOfFlag()
    ensures PairOf("flag") == None
  {
    SplitNoSeparator("flag", '=');
  }
}
