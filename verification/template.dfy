/**
 * Message templates with `${key}` placeholders (shaken_template/src/lib.rs):
 * the scanner `find_keys`, substitution `apply`, and the environment that
 * maps keys to the text put in their place.
 *
 * Positions are character indices; where the code compares byte offsets from
 * `char_indices`, the model compares `Utf8.Offset` of those indices. A key is
 * sliced by characters from two past its `$` to its `}`, which is the byte
 * slice `head + 2..tail` because `$` and `{` are one byte each.
 */
module Templates {
  import opened Wrappers
  import opened Text
  import opened Utf8

  datatype TemplateError = NestedTemplates | NonTerminated | EmptyTemplate | Custom(message: string)

  /** `Display` of the error. */
  function ErrorMessage(e: TemplateError): (m: string)
    ensures e.Custom? ==> m == e.message
    ensures !e.Custom? ==> (EndsWith(m, " allowed") <==> !e.NonTerminated?)
  {
    match e
    case NestedTemplates => "nested templates are not allowed"
    case NonTerminated => "non-terminated template found"
    case EmptyTemplate => "empty templates are not allowed"
    case Custom(message) => message
  }

  /** The three scanner errors have three different messages. */
  lemma ErrorMessagesDiffer(a: TemplateError, b: TemplateError)
    requires !a.Custom? && !b.Custom? && ErrorMessage(a) == ErrorMessage(b)
    ensures a == b
  {
  }

  // ------------------------------------------------------------------ scanning

  /**
   * The scanner's variables: the positions of every `${` and every `}` that
   * closed a placeholder, and the position of the open `${`, if any.
   */
  datatype Scan = Scan(heads: seq<nat>, tails: seq<nat>, last: Option<nat>)

  const Start := Scan([], [], None)

  /** Whether a `${` opens at index `k`. */
  predicate OpensAt(s: string, k: nat) {
    k + 1 < |s| && s[k] == '$' && s[k + 1] == '{'
  }

  /**
   * The rest of the `find_keys` loop from index `k`: a `${` opens a
   * placeholder (the `{` is consumed with it), a `{` inside one is an error,
   * a `}` inside one closes it; everything else is skipped.
   */
  function ScanFrom(s: string, k: nat, st: Scan): Result<Scan, TemplateError>
    decreases |s| - k
  {
    if k >= |s| then Ok(st)
    else if OpensAt(s, k) then ScanFrom(s, k + 2, Scan(st.heads + [k], st.tails, Some(k)))
    else if s[k] == '{' && st.last.Some? then Err(NestedTemplates)
    else if s[k] == '}' && st.last.Some? then ScanFrom(s, k + 1, Scan(st.heads, st.tails + [k], None))
    else ScanFrom(s, k + 1, st)
  }

  /**
   * What the scanner keeps true. Each closing needs an opening just before
   * it, so there are never fewer openings than closings (plus the open one);
   * while the counts still agree, openings and closings have alternated,
   * each `}` at least two past its `${`. A `${` inside an open placeholder
   * starts a new one, and the counts never agree again.
   */
  predicate Alternating(s: string, k: nat, st: Scan) {
    var h, t := st.heads, st.tails;
    var open := if st.last.Some? then 1 else 0;
    k <= |s|
    && |t| + open <= |h|
    && (st.last.Some? ==> st.last.value == h[|h| - 1] && h[|h| - 1] + 2 <= k)
    && (|h| == |t| + open ==>
         (forall i :: 0 <= i < |t| ==> h[i] + 2 <= t[i] < k)
         && (forall i :: 0 <= i < |t| && i + 1 < |h| ==> t[i] < h[i + 1]))
  }

  /** One step of the scan keeps `Alternating`. */
  lemma AlternatingStep(s: string, k: nat, st: Scan)
    requires Alternating(s, k, st) && k < |s|
    ensures OpensAt(s, k) ==> Alternating(s, k + 2, Scan(st.heads + [k], st.tails, Some(k)))
    ensures s[k] == '}' && st.last.Some? ==> Alternating(s, k + 1, Scan(st.heads, st.tails + [k], None))
    ensures Alternating(s, k + 1, st)
  {
  }

  lemma {:induction false} ScanAlternates(s: string, k: nat, st: Scan)
    requires Alternating(s, k, st)
    ensures ScanFrom(s, k, st).Ok? ==> Alternating(s, |s|, ScanFrom(s, k, st).value)
    decreases |s| - k
  {
    if k >= |s| {
    } else {
      AlternatingStep(s, k, st);
      if OpensAt(s, k) {
        ScanAlternates(s, k + 2, Scan(st.heads + [k], st.tails, Some(k)));
      } else if s[k] == '{' && st.last.Some? {
      } else if s[k] == '}' && st.last.Some? {
        ScanAlternates(s, k + 1, Scan(st.heads, st.tails + [k], None));
      } else {
        ScanAlternates(s, k + 1, st);
      }
    }
  }

  /** Heads and tails that pair up: the state of a scan that closed every placeholder. */
  predicate Paired(s: string, heads: seq<nat>, tails: seq<nat>) {
    |heads| == |tails| && forall i :: 0 <= i < |tails| ==> heads[i] + 2 <= tails[i] <= |s|
  }

  /**
   * The pairing loop: the `i`-th `${` goes with the `i`-th `}`; a placeholder
   * whose `}` is three bytes after its `$` is refused, and every other key
   * is the text between `${` and `}`.
   */
  function Pair(s: string, heads: seq<nat>, tails: seq<nat>): Result<seq<string>, TemplateError>
    requires Paired(s, heads, tails)
  {
    if heads == [] then Ok([])
    else if Offset(s, tails[0]) == Offset(s, heads[0]) + 3 then Err(EmptyTemplate)
    else match Pair(s, heads[1..], tails[1..])
      case Err(e) => Err(e)
      case Ok(keys) => Ok([s[heads[0] + 2..tails[0]]] + keys)
  }

  /** `keys` in front of the keys of a pairing that succeeded; errors pass through. */
  function Prepend(keys: seq<string>, r: Result<seq<string>, TemplateError>): Result<seq<string>, TemplateError> {
    match r
    case Err(e) => Err(e)
    case Ok(ks) => Ok(keys + ks)
  }

  lemma PrependAssoc(a: seq<string>, b: seq<string>, r: Result<seq<string>, TemplateError>)
    ensures Prepend(a, Prepend(b, r)) == Prepend(a + b, r)
  {
    if r.Ok? {
      assert a + (b + r.value) == (a + b) + r.value;
    }
  }

  lemma PrependNil(r: Result<seq<string>, TemplateError>)
    ensures Prepend([], r) == r
  {
    if r.Ok? {
      assert [] + r.value == r.value;
    }
  }

  /** `ParsedTemplate::find_keys`. */
  function Keys(s: string): Result<seq<string>, TemplateError> {
    ScanAlternates(s, 0, Start);
    match ScanFrom(s, 0, Start)
    case Err(e) => Err(e)
    case Ok(st) =>
      if |st.heads| != |st.tails| then Err(NonTerminated)
      else Pair(s, st.heads, st.tails)
  }

  /** `find_keys`, as the scanning loop and the pairing loop of the source. */
  method FindKeys(input: string) returns (r: Result<seq<string>, TemplateError>)
    ensures r == Keys(input)
  {
    var heads: seq<nat> := [];
    var tails: seq<nat> := [];
    var last: Option<nat> := None;
    var k := 0;
    while k < |input|
      invariant Scanning(input, k, Scan(heads, tails, last))
      decreases |input| - k
    {
      if OpensAt(input, k) {
        ScanOpens(input, k, Scan(heads, tails, last));
        last := Some(k);
        heads := heads + [k];
        k := k + 2;
      } else if input[k] == '{' && last.Some? {
        ScanNested(input, k, Scan(heads, tails, last));
        return Err(NestedTemplates);
      } else if input[k] == '}' && last.Some? {
        ScanCloses(input, k, Scan(heads, tails, last));
        tails := tails + [k];
        last := None;
        k := k + 1;
      } else {
        ScanSkips(input, k, Scan(heads, tails, last));
        k := k + 1;
      }
    }
    ScanDone(input, k, Scan(heads, tails, last));
    if |heads| != |tails| {
      return Err(NonTerminated);
    }
    r := PairKeys(input, heads, tails);
  }

  /** The state of the scanning loop at index `k`: what the scan keeps true, and the same end as the scan from the start. */
  ghost predicate Scanning(s: string, k: nat, st: Scan) {
    Alternating(s, k, st) && ScanFrom(s, k, st) == ScanFrom(s, 0, Start)
  }

  lemma ScanOpens(s: string, k: nat, st: Scan)
    requires Scanning(s, k, st) && OpensAt(s, k)
    ensures Scanning(s, k + 2, Scan(st.heads + [k], st.tails, Some(k)))
  {
    AlternatingStep(s, k, st);
  }

  lemma ScanNested(s: string, k: nat, st: Scan)
    requires Scanning(s, k, st) && k < |s| && !OpensAt(s, k) && s[k] == '{' && st.last.Some?
    ensures Keys(s) == Err(NestedTemplates)
  {
  }

  lemma ScanCloses(s: string, k: nat, st: Scan)
    requires Scanning(s, k, st) && k < |s| && !OpensAt(s, k) && s[k] == '}' && st.last.Some?
    ensures Scanning(s, k + 1, Scan(st.heads, st.tails + [k], None))
  {
    AlternatingStep(s, k, st);
  }

  lemma ScanSkips(s: string, k: nat, st: Scan)
    requires Scanning(s, k, st) && k < |s| && !OpensAt(s, k) && !(s[k] == '{' && st.last.Some?) && !(s[k] == '}' && st.last.Some?)
    ensures Scanning(s, k + 1, st)
  {
    AlternatingStep(s, k, st);
  }

  lemma ScanDone(s: string, k: nat, st: Scan)
    requires Scanning(s, k, st) && k >= |s|
    ensures |st.heads| == |st.tails| ==> Paired(s, st.heads, st.tails)
    ensures Keys(s) == if |st.heads| != |st.tails| then Err(NonTerminated) else Pair(s, st.heads, st.tails)
  {
  }

  /** The pairing loop of `find_keys`. */
  method PairKeys(input: string, heads: seq<nat>, tails: seq<nat>) returns (r: Result<seq<string>, TemplateError>)
    requires Paired(input, heads, tails)
    ensures r == Pair(input, heads, tails)
  {
    var keys: seq<string> := [];
    var i := 0;
    assert heads[0..] == heads && tails[0..] == tails;
    PrependNil(Pair(input, heads, tails));
    while i < |heads|
      invariant i <= |heads| && Paired(input, heads[i..], tails[i..])
      invariant Pair(input, heads, tails) == Prepend(keys, Pair(input, heads[i..], tails[i..]))
      decreases |heads| - i
    {
      var head, tail := heads[i], tails[i];
      assert heads[i..][1..] == heads[i + 1..] && tails[i..][1..] == tails[i + 1..];
      if Offset(input, tail) == Offset(input, head) + 3 {
        return Err(EmptyTemplate);
      }
      assert tail > head;
      PrependAssoc(keys, [input[head + 2..tail]], Pair(input, heads[i + 1..], tails[i + 1..]));
      keys := keys + [input[head + 2..tail]];
      i := i + 1;
    }
    assert heads[i..] == [] && keys + [] == keys;
    r := Ok(keys);
  }

  /** A `}` three bytes after its `$` means the key between them is one byte long. */
  lemma EmptyMeansOneByte(s: string, h: nat, t: nat)
    requires h + 2 <= t <= |s| && s[h] == '$' && s[h + 1] == '{'
    ensures Offset(s, t) == Offset(s, h) + 3 <==> |s[h + 2..t]| == 1 && s[h + 2] < '\U{80}'
  {
    assert s[..t] == s[..h] + ['$', '{'] + s[h + 2..t];
    ByteLenAppend(s[..h] + ['$', '{'], s[h + 2..t]);
    ByteLenAppend(s[..h], ['$', '{']);
    ByteLenOne(s[h + 2..t]);
  }

  // ------------------------------------------------------------- substitution

  /** `str::replace`: every occurrence of `pat`, left to right and not overlapping, by `val`. */
  function Replace(s: string, pat: string, val: string): string
    requires pat != []
    decreases |s|
  {
    if |s| < |pat| then s
    else if StartsWith(s, pat) then val + Replace(s[|pat|..], pat, val)
    else [s[0]] + Replace(s[1..], pat, val)
  }

  /** The placeholder that stands for `key`. */
  function Placeholder(key: string): (p: string)
    ensures |p| == |key| + 3 && p[0] == '$' && p[1] == '{'
  {
    "${" + key + "}"
  }

  /** The values of the environment: `Environment::resolve` of each key. */
  type Env = map<string, string>

  /** `Environment::insert`: the key is bound to the new value, replacing any old one. */
  function Insert(env: Env, key: string, value: string): (r: Env)
    ensures r.Keys == env.Keys + {key} && r[key] == value
    ensures forall k :: k in env && k != key ==> r[k] == env[k]
  {
    env[key := value]
  }

  /** The `apply` loop from the `i`-th key on: bound keys are replaced in turn, unbound ones skipped. */
  function ApplyFrom(temp: string, keys: seq<string>, env: Env): string
    decreases |keys|
  {
    if keys == [] then temp
    else
      var next := if keys[0] in env then Replace(temp, Placeholder(keys[0]), env[keys[0]]) else temp;
      ApplyFrom(next, keys[1..], env)
  }

  /** `ParsedTemplate::apply`. */
  method Apply(data: string, keys: seq<string>, env: Env) returns (r: string)
    ensures r == ApplyFrom(data, keys, env)
  {
    var temp := data;
    var i := 0;
    while i < |keys|
      invariant i <= |keys| && ApplyFrom(temp, keys[i..], env) == ApplyFrom(data, keys, env)
      decreases |keys| - i
    {
      assert keys[i..][1..] == keys[i + 1..];
      if keys[i] in env {
        temp := Replace(temp, Placeholder(keys[i]), env[keys[i]]);
      }
      i := i + 1;
    }
    assert keys[i..] == [];
    r := temp;
  }

  /** `SimpleTemplate::apply`: parse the body, then substitute; a parse error is passed on. */
  function Substitute(data: string, env: Env): Result<string, TemplateError> {
    match Keys(data)
    case Err(e) => Err(e)
    case Ok(keys) => Ok(ApplyFrom(data, keys, env))
  }

  /** With nothing bound, applying any keys leaves the text as it was. */
  lemma {:induction false} ApplyEmptyEnv(temp: string, keys: seq<string>)
    ensures ApplyFrom(temp, keys, map[]) == temp
    decreases |keys|
  {
    if keys != [] {
      ApplyEmptyEnv(temp, keys[1..]);
    }
  }

  /** An empty environment changes nothing in a body that parses. */
  lemma SubstituteEmpty(data: string)
    ensures Keys(data).Ok? ==> Substitute(data, map[]) == Ok(data)
    ensures Keys(data).Err? ==> Substitute(data, map[]) == Err(Keys(data).error)
  {
    if Keys(data).Ok? {
      ApplyEmptyEnv(data, Keys(data).value);
    }
  }
}
