/**
 * Duration formatting on whole seconds (still_shaken/src/format.rs, with an
 * identical copy inside still_shaken/src/lib.rs): `timestamp`, a clock-style
 * `HH:MM:SS` or `MM:SS`, and `relative_time`, an English phrase such as
 * "1 day, 2 hours, 3 minutes and 4 seconds".
 */
module Format {
  import opened Text

  // ------------------------------------------------------------- decimal text

  function DigitChar(d: nat): (c: char)
    requires d < 10
    ensures '0' <= c <= '9'
  {
    ['0', '1', '2', '3', '4', '5', '6', '7', '8', '9'][d]
  }

  predicate AllDigits(s: string) {
    forall i :: 0 <= i < |s| ==> '0' <= s[i] <= '9'
  }

  /** `n` written in decimal (`{}` on an unsigned integer). */
  function Digits(n: nat): (r: string)
    ensures r != [] && AllDigits(r)
    decreases n
  {
    if n < 10 then [DigitChar(n)] else Digits(n / 10) + [DigitChar(n % 10)]
  }

  /** The number a string of decimal digits stands for. */
  function Value(s: string): nat
    requires AllDigits(s)
    decreases |s|
  {
    if s == [] then 0 else Value(s[..|s| - 1]) * 10 + (s[|s| - 1] as int - '0' as int)
  }

  lemma {:induction false} ValueDigits(n: nat)
    ensures Value(Digits(n)) == n
    decreases n
  {
    var d := Digits(n);
    if n >= 10 {
      ValueDigits(n / 10);
      assert d[..|d| - 1] == Digits(n / 10);
    }
  }

  /** A leading zero does not change the value. */
  lemma {:induction false} ValueLeadingZero(s: string)
    requires AllDigits(s)
    ensures Value("0" + s) == Value(s)
    decreases |s|
  {
    if s != [] {
      var z := "0" + s;
      assert z[..|z| - 1] == "0" + s[..|s| - 1];
      ValueLeadingZero(s[..|s| - 1]);
    }
  }

  /** `{:02}`: decimal, padded with a zero to at least two digits. */
  function Pad2(n: nat): (r: string)
    ensures |r| >= 2 && AllDigits(r)
  {
    var d := Digits(n);
    if |d| < 2 then "0" + d else d
  }

  lemma ValuePad2(n: nat)
    ensures Value(Pad2(n)) == n
  {
    ValueDigits(n);
    if |Digits(n)| < 2 {
      ValueLeadingZero(Digits(n));
    }
  }

  // ----------------------------------------------------------------- timestamp

  /** The fields `timestamp` writes: hours only when there is at least one. */
  function Fields(secs: nat): (f: seq<nat>)
    ensures |f| == 2 || |f| == 3
  {
    var hours, minutes, seconds := secs / 3600, (secs / 60) % 60, secs % 60;
    if hours > 0 then [hours, minutes, seconds] else [minutes, seconds]
  }

  function PadAll(f: seq<nat>): (r: seq<string>)
    ensures |r| == |f|
    ensures forall i :: 0 <= i < |f| ==> r[i] == Pad2(f[i])
  {
    seq(|f|, i requires 0 <= i < |f| => Pad2(f[i]))
  }

  /** `FormatTime::timestamp`. */
  function Timestamp(secs: nat): string {
    Join(":", PadAll(Fields(secs)))
  }

  /** Reading a clock-style time back: `H:M:S` or `M:S`. */
  function Seconds(t: string): nat {
    var p := Split(t, ':');
    if |p| == 3 && AllDigits(p[0]) && AllDigits(p[1]) && AllDigits(p[2]) then
      Value(p[0]) * 3600 + Value(p[1]) * 60 + Value(p[2])
    else if |p| == 2 && AllDigits(p[0]) && AllDigits(p[1]) then
      Value(p[0]) * 60 + Value(p[1])
    else 0
  }

  /** The fields of a timestamp: three exactly when there is a whole hour, each below its bound. */
  lemma FieldsBounds(secs: nat)
    ensures |Fields(secs)| == 3 <==> secs >= 3600
    ensures Fields(secs)[|Fields(secs)| - 1] < 60 && Fields(secs)[|Fields(secs)| - 2] < 60
  {
  }

  /** Clock fields written with `Pad2` and joined by `:` read back as their total. */
  lemma SecondsOfFields(f: seq<nat>)
    requires |f| == 2 || |f| == 3
    ensures Seconds(Join(":", PadAll(f)))
         == if |f| == 3 then f[0] * 3600 + f[1] * 60 + f[2] else f[0] * 60 + f[1]
  {
    var p := PadAll(f);
    forall i | 0 <= i < |p|
      ensures ':' !in p[i]
    {
      assert AllDigits(p[i]);
    }
    SplitJoin(p, ':');
    forall i | 0 <= i < |p|
      ensures Value(p[i]) == f[i]
    {
      ValuePad2(f[i]);
    }
  }

  /** Hours, minutes and seconds add back up. */
  lemma Decompose(secs: nat)
    ensures (secs / 3600) * 3600 + ((secs / 60) % 60) * 60 + secs % 60 == secs
  {
  }

  /** A timestamp reads back as the seconds it was made from. */
  lemma TimestampRoundTrip(secs: nat)
    ensures Seconds(Timestamp(secs)) == secs
  {
    var f := Fields(secs);
    SecondsOfFields(f);
    FieldsTotal(secs);
    var total := if |f| == 3 then f[0] * 3600 + f[1] * 60 + f[2] else f[0] * 60 + f[1];
    assert Seconds(Timestamp(secs)) == total;
  }

  /** The fields of a timestamp add back up to its seconds. */
  lemma FieldsTotal(secs: nat)
    ensures var f := Fields(secs);
      (if |f| == 3 then f[0] * 3600 + f[1] * 60 + f[2] else f[0] * 60 + f[1]) == secs
  {
    var f := Fields(secs);
    Decompose(secs);
    if secs / 3600 > 0 {
      assert f == [secs / 3600, (secs / 60) % 60, secs % 60];
    } else {
      assert f == [(secs / 60) % 60, secs % 60];
    }
  }

  lemma TimestampShort()
    ensures Timestamp(61) == "01:01"
  {
    assert Fields(61) == [1, 1];
    assert Pad2(1) == "01";
    assert PadAll([1, 1]) == ["01", "01"];
    assert Join(":", ["01", "01"]) == "01:01";
  }

  lemma TimestampLong()
    ensures Timestamp(3661) == "01:01:01"
  {
    var p := ["01", "01", "01"];
    assert PadAll(Fields(3661)) == p by {
      FieldsOf3661();
      PadOnes();
    }
    JoinOnes();
  }

  lemma FieldsOf3661()
    ensures Fields(3661) == [1, 1, 1]
  {
    assert 3661 / 3600 == 1 && (3661 / 60) % 60 == 1 && 3661 % 60 == 1;
  }

  lemma PadOnes()
    ensures PadAll([1, 1, 1]) == ["01", "01", "01"]
  {
    assert Digits(1) == "1";
    assert Pad2(1) == "01";
  }

  lemma JoinOnes()
    ensures Join(":", ["01", "01", "01"]) == "01:01:01"
  {
    var p := ["01", "01", "01"];
    assert p[1..] == ["01", "01"] && p[1..][1..] == ["01"];
    assert Join(":", ["01", "01"]) == "01:01";
  }

  // ------------------------------------------------------------- relative time

  /** The units `relative_time` tries, largest first, with their length in seconds. */
  const Table: seq<(string, nat)> := [("days", 86400), ("hours", 3600), ("minutes", 60), ("seconds", 1)]

  /** The seconds left when the `i`-th unit comes up. */
  function Rest(secs: nat, i: nat): nat
    requires i <= |Table|
  {
    if i == 0 then secs else secs % Table[i - 1].1
  }

  /** How many whole `i`-th units the remainder holds. */
  function Amount(secs: nat, i: nat): nat
    requires i < |Table|
  {
    Rest(secs, i) / Table[i].1
  }

  /** Taking out the whole units leaves the next remainder. */
  lemma RestStep(secs: nat, i: nat)
    requires i < |Table|
    ensures Table[i].1 > 0
    ensures Rest(secs, i) - Table[i].1 * (Rest(secs, i) / Table[i].1) == Rest(secs, i + 1)
    ensures Rest(secs, i) / Table[i].1 == 0 ==> Rest(secs, i) == Rest(secs, i + 1)
  {
    var r := Rest(secs, i);
    if i == 0 {
      assert r - 86400 * (r / 86400) == secs % 86400;
    } else if i == 1 {
      HoursWithinDay(secs);
      assert r - 3600 * (r / 3600) == r % 3600;
    } else if i == 2 {
      MinutesWithinHour(secs);
      assert r - 60 * (r / 60) == r % 60;
    } else {
      assert r == secs % 60 && r / 1 == r;
    }
  }

  /** Within a day, the remainder by the hour is the same as for the whole count. */
  lemma HoursWithinDay(secs: nat)
    ensures (secs % 86400) % 3600 == secs % 3600
  {
    var q := secs / 86400;
    assert secs == 86400 * q + secs % 86400;
    assert (secs % 86400) % 3600 == (secs - 3600 * (24 * q)) % 3600;
  }

  /** Within an hour, the remainder by the minute is the same as for the whole count. */
  lemma MinutesWithinHour(secs: nat)
    ensures (secs % 3600) % 60 == secs % 60
  {
    var r := secs % 3600;
    var m := r / 60;
    assert r == 60 * m + r % 60;
    assert secs == 60 * (60 * (secs / 3600) + m) + r % 60;
  }

  /** The unit's name: plural unless the count is exactly one. */
  function UnitName(n: nat, i: nat): string
    requires i < |Table|
  {
    var name := Table[i].0;
    if n > 1 then name else name[..|name| - 1]
  }

  /** One part of the phrase, such as "3 hours". */
  function Phrase(n: nat, i: nat): string
    requires i < |Table|
  {
    Digits(n) + " " + UnitName(n, i)
  }

  /** The parts for the first `n` units; units that do not fit even once are left out. */
  function PartsUpTo(secs: nat, n: nat): seq<string>
    requires n <= |Table|
  {
    if n == 0 then []
    else PartsUpTo(secs, n - 1) + (if Amount(secs, n - 1) > 0 then [Phrase(Amount(secs, n - 1), n - 1)] else [])
  }

  /** The punctuation `relative_time` adds: commas after all but the last two parts, "and" before the last. */
  function Punctuated(parts: seq<string>): (r: seq<string>)
    ensures |r| == |parts| + (if |parts| > 1 then 1 else 0)
  {
    if |parts| <= 1 then parts
    else
      var k := |parts|;
      seq(k - 2, i requires 0 <= i < k - 2 => parts[i] + ",") + [parts[k - 2], "and", parts[k - 1]]
  }

  /** The phrase `relative_time` gives for `secs`. */
  function Relative(secs: nat): string {
    Join(" ", Punctuated(PartsUpTo(secs, |Table|)))
  }

  /** `FormatTime::relative_time`. */
  method RelativeTime(secs: nat) returns (r: string)
    ensures r == Relative(secs)
  {
    var rest := secs;
    var time: seq<string> := [];
    for i := 0 to |Table|
      invariant Timing(secs, i, rest, time)
    {
      var (name, dur) := Table[i];
      var div := rest / dur;
      TimingStep(secs, i, rest, time, div);
      if div > 0 {
        var unit := if div > 1 then name else name[..|name| - 1];
        time := time + [Digits(div) + " " + unit];
        rest := rest - dur * div;
      }
    }
    time := Punctuate(time);
    r := Join(" ", time);
  }

  /** The state of the loop in `relative_time` before the `i`-th unit. */
  ghost predicate Timing(secs: nat, i: nat, rest: nat, time: seq<string>) {
    i <= |Table| && rest == Rest(secs, i) && time == PartsUpTo(secs, i)
  }

  /** One round of that loop: the unit either adds its part and leaves the remainder, or is skipped. */
  lemma TimingStep(secs: nat, i: nat, rest: nat, time: seq<string>, div: nat)
    requires i < |Table| && Timing(secs, i, rest, time) && div == rest / Table[i].1
    ensures Table[i].1 > 0 && |Table[i].0| > 0 && Table[i].1 * div <= rest
    ensures div > 0 ==> Timing(secs, i + 1, rest - Table[i].1 * div, time + [Phrase(div, i)])
    ensures div == 0 ==> Timing(secs, i + 1, rest, time)
  {
    RestStep(secs, i);
  }

  /** The comma and "and" edits on the list of parts. */
  method Punctuate(parts: seq<string>) returns (time: seq<string>)
    ensures time == Punctuated(parts)
  {
    time := parts;
    var len := |time|;
    if len > 1 {
      if len > 2 {
        for j := 0 to len - 2
          invariant |time| == len
          invariant forall k :: 0 <= k < j ==> time[k] == parts[k] + ","
          invariant forall k :: j <= k < len ==> time[k] == parts[k]
        {
          time := time[j := time[j] + ","];
        }
      }
      time := time[..len - 1] + ["and"] + time[len - 1..];
    }
  }

  // ---------------------------------------------------- what the phrase says

  /** The whole units taken out add back up to the input, each below the next unit up. */
  lemma AmountsAddUp(secs: nat)
    ensures Amount(secs, 0) * 86400 + Amount(secs, 1) * 3600 + Amount(secs, 2) * 60 + Amount(secs, 3) == secs
    ensures Amount(secs, 1) < 24 && Amount(secs, 2) < 60 && Amount(secs, 3) < 60
  {
    RestStep(secs, 0);
    RestStep(secs, 1);
    RestStep(secs, 2);
    RestStep(secs, 3);
    assert Rest(secs, 4) == 0;
    assert Rest(secs, 1) < 86400 && Rest(secs, 2) < 3600 && Rest(secs, 3) < 60;
  }

  /** Seconds in a unit word as the phrase writes it, singular or plural, with or without a comma. */
  function UnitSeconds(u: string): nat {
    var w := if u != [] && u[|u| - 1] == ',' then u[..|u| - 1] else u;
    if w == "day" || w == "days" then 86400
    else if w == "hour" || w == "hours" then 3600
    else if w == "minute" || w == "minutes" then 60
    else if w == "second" || w == "seconds" then 1
    else 0
  }

  /** The seconds in "N unit". */
  function Count(d: string, u: string): nat
    requires AllDigits(d)
  {
    Value(d) * UnitSeconds(u)
  }

  /** Adding up "N unit" pairs in a list of words; any other word is skipped. */
  function Tally(words: seq<string>): nat
    decreases |words|
  {
    if words == [] then 0
    else if |words| >= 2 && words[0] != [] && AllDigits(words[0]) then
      Count(words[0], words[1]) + Tally(words[2..])
    else Tally(words[1..])
  }

  /** Reading a `relative_time` phrase back as a number of seconds. */
  function Reading(phrase: string): nat {
    Tally(Split(phrase, ' '))
  }

  /** A position in the table of units. */
  type UnitIndex = i: nat | i < 4

  /** The parts as (count, unit index) pairs. */
  function PairsUpTo(secs: nat, n: nat): (ps: seq<(nat, UnitIndex)>)
    requires n <= |Table|
    ensures forall j :: 0 <= j < |ps| ==> ps[j].1 < n && ps[j].0 > 0
  {
    if n == 0 then []
    else PairsUpTo(secs, n - 1) + (if Amount(secs, n - 1) > 0 then [(Amount(secs, n - 1), n - 1)] else [])
  }

  /** The seconds one pair stands for. */
  function Weight(n: nat, i: nat): nat
    requires i < |Table|
  {
    n * Table[i].1
  }

  /** The seconds the pairs stand for. */
  function Sum(ps: seq<(nat, UnitIndex)>): nat
    decreases |ps|
  {
    if ps == [] then 0 else Weight(ps[0].0, ps[0].1) + Sum(ps[1..])
  }

  lemma {:induction false} SumSnoc(ps: seq<(nat, UnitIndex)>, p: (nat, UnitIndex))
    requires p.1 < |Table|
    ensures Sum(ps + [p]) == Sum(ps) + Weight(p.0, p.1)
    decreases |ps|
  {
    if ps != [] {
      assert (ps + [p])[1..] == ps[1..] + [p];
      SumSnoc(ps[1..], p);
    }
  }

  /** The seconds in the whole units taken out before unit `n`. */
  function Whole(secs: nat, n: nat): nat
    requires n <= |Table|
  {
    if n == 0 then 0 else Whole(secs, n - 1) + Weight(Amount(secs, n - 1), n - 1)
  }

  /** One more unit adds its pair, if any, to the sum. */
  lemma SumPairsStep(secs: nat, n: nat)
    requires 0 < n <= |Table|
    ensures Sum(PairsUpTo(secs, n)) == Sum(PairsUpTo(secs, n - 1)) + Weight(Amount(secs, n - 1), n - 1)
  {
    var ps, a := PairsUpTo(secs, n - 1), Amount(secs, n - 1);
    if a > 0 {
      assert PairsUpTo(secs, n) == ps + [(a, n - 1)];
      SumSnoc(ps, (a, n - 1));
    } else {
      assert PairsUpTo(secs, n) == ps;
    }
  }

  /** The pairs up to unit `n` stand for the whole units taken out so far. */
  lemma {:induction false} SumPairs(secs: nat, n: nat)
    requires n <= |Table|
    ensures Sum(PairsUpTo(secs, n)) == Whole(secs, n)
  {
    if n > 0 {
      SumPairs(secs, n - 1);
      SumPairsStep(secs, n);
    }
  }

  /** All the pairs together stand for the input. */
  lemma PairsAddUp(secs: nat)
    ensures Sum(PairsUpTo(secs, |Table|)) == secs
  {
    SumPairs(secs, |Table|);
    AmountsAddUp(secs);
    assert Whole(secs, 1) == Amount(secs, 0) * 86400;
    assert Whole(secs, 2) == Whole(secs, 1) + Amount(secs, 1) * 3600;
    assert Whole(secs, 3) == Whole(secs, 2) + Amount(secs, 2) * 60;
    assert Whole(secs, 4) == Whole(secs, 3) + Amount(secs, 3) * 1;
  }

  /** The parts are the phrases of the pairs. */
  lemma {:induction false} PartsArePairs(secs: nat, n: nat)
    requires n <= |Table|
    ensures |PartsUpTo(secs, n)| == |PairsUpTo(secs, n)|
    ensures forall j :: 0 <= j < |PairsUpTo(secs, n)| ==>
      PartsUpTo(secs, n)[j] == Phrase(PairsUpTo(secs, n)[j].0, PairsUpTo(secs, n)[j].1)
  {
    if n > 0 {
      PartsArePairs(secs, n - 1);
    }
  }

  /** The phrases of the pairs, in order. */
  function PhrasesOf(ps: seq<(nat, UnitIndex)>): (r: seq<string>)
    ensures |r| == |ps|
  {
    seq(|ps|, j requires 0 <= j < |ps| => Phrase(ps[j].0, ps[j].1))
  }

  /** A unit word has no space, and is read back as its unit with or without a comma after it. */
  lemma UnitWord(n: nat, i: nat)
    requires i < |Table|
    ensures ' ' !in UnitName(n, i)
    ensures UnitSeconds(UnitName(n, i)) == Table[i].1 && UnitSeconds(UnitName(n, i) + ",") == Table[i].1
  {
    var u := UnitName(n, i);
    assert (u + ",")[..|u + ","| - 1] == u;
    if i == 0 {
      assert u == "day" || u == "days";
    } else if i == 1 {
      assert u == "hour" || u == "hours";
    } else if i == 2 {
      assert u == "minute" || u == "minutes";
    } else {
      assert u == "second" || u == "seconds";
    }
  }

  /** A word of digits holds no space. */
  lemma DigitsNoSpace(d: string)
    requires AllDigits(d)
    ensures ' ' !in d
  {
    assert forall k :: 0 <= k < |d| ==> d[k] != ' ';
  }

  /** A word of digits followed by a unit word counts that many units. */
  lemma TallyPair(d: string, u: string, words: seq<string>)
    requires d != [] && AllDigits(d)
    ensures Tally([d, u] + words) == Count(d, u) + Tally(words)
  {
    var w := [d, u] + words;
    assert w[0] == d && w[1] == u && w[2..] == words;
  }

  /** A phrase reads back as the seconds of its pair, with or without a comma. */
  lemma PhraseCount(n: nat, i: nat)
    requires i < |Table|
    ensures Phrase(n, i) == Digits(n) + [' '] + UnitName(n, i)
    ensures ' ' !in UnitName(n, i) && ' ' !in UnitName(n, i) + ","
    ensures Count(Digits(n), UnitName(n, i)) == Weight(n, i)
    ensures Count(Digits(n), UnitName(n, i) + ",") == Weight(n, i)
  {
    UnitWord(n, i);
    ValueDigits(n);
  }

  /** "N unit" followed by more words is read as N units plus the rest. */
  lemma WordPair(d: string, u: string, rest: string)
    requires d != [] && AllDigits(d) && ' ' !in u
    ensures Tally(Split(d + [' '] + u + [' '] + rest, ' ')) == Count(d, u) + Tally(Split(rest, ' '))
  {
    SplitPair(d, u, rest);
    TallyPair(d, u, Split(rest, ' '));
  }

  /** Splitting "N unit rest" at spaces. */
  lemma SplitPair(d: string, u: string, rest: string)
    requires AllDigits(d) && ' ' !in u
    ensures Split(d + [' '] + u + [' '] + rest, ' ') == [d, u] + Split(rest, ' ')
  {
    var t := u + [' '] + rest;
    assert d + [' '] + u + [' '] + rest == d + [' '] + t;
    assert Split(d + [' '] + t, ' ') == [d] + Split(t, ' ') by {
      DigitsNoSpace(d);
      SplitAtSeparator(d, ' ', t);
    }
    assert Split(t, ' ') == [u] + Split(rest, ' ') by {
      SplitAtSeparator(u, ' ', rest);
    }
  }

  /** "N unit" at the end is read as N units. */
  lemma WordPairLast(d: string, u: string)
    requires d != [] && AllDigits(d) && ' ' !in u
    ensures Tally(Split(d + [' '] + u, ' ')) == Count(d, u)
  {
    DigitsNoSpace(d);
    SplitNoSeparator(u, ' ');
    SplitAtSeparator(d, ' ', u);
    assert Split(d + [' '] + u, ' ') == [d, u] + [];
    TallyPair(d, u, []);
  }

  /** The word "and" adds nothing. */
  lemma AndWord(rest: string)
    ensures Tally(Split("and" + [' '] + rest, ' ')) == Tally(Split(rest, ' '))
  {
    SplitAtSeparator("and", ' ', rest);
    var w := ["and"] + Split(rest, ' ');
    assert w[1..] == Split(rest, ' ');
    assert !('0' <= w[0][0] <= '9');
  }

  /** With three or more parts, the first takes a comma and the rest are punctuated alike. */
  lemma PunctuatedCons(parts: seq<string>)
    requires |parts| > 2
    ensures Punctuated(parts) == [parts[0] + ","] + Punctuated(parts[1..])
  {
    var a, b := Punctuated(parts), [parts[0] + ","] + Punctuated(parts[1..]);
    assert |a| == |b|;
    forall j | 0 <= j < |a|
      ensures a[j] == b[j]
    {
      if j > 0 {
        assert b[j] == Punctuated(parts[1..])[j - 1];
      }
    }
  }

  /** Reading back the punctuated phrases of some pairs gives the seconds they stand for. */
  lemma {:induction false} ReadingPhrases(ps: seq<(nat, UnitIndex)>)
    requires |ps| >= 1
    ensures Reading(Join(" ", Punctuated(PhrasesOf(ps)))) == Sum(ps)
    decreases |ps|
  {
    if |ps| <= 2 {
      ReadingShort(ps);
    } else {
      var p := PhrasesOf(ps);
      assert Sum(ps) == Weight(ps[0].0, ps[0].1) + Sum(ps[1..]);
      PunctuatedCons(p);
      PhrasesTail(ps);
      ReadComma(ps[0].0, ps[0].1, Punctuated(p[1..]));
      ReadingPhrases(ps[1..]);
    }
  }

  /** One part, or two around "and", read back as their seconds. */
  lemma ReadingShort(ps: seq<(nat, UnitIndex)>)
    requires 1 <= |ps| <= 2
    ensures Reading(Join(" ", Punctuated(PhrasesOf(ps)))) == Sum(ps)
  {
    ShortSeq(ps);
    if |ps| == 1 {
      ReadingOnePart(ps[0]);
    } else {
      ReadingTwoParts(ps[0], ps[1]);
    }
  }

  lemma ShortSeq<T>(s: seq<T>)
    requires 1 <= |s| <= 2
    ensures |s| == 1 ==> s == [s[0]]
    ensures |s| == 2 ==> s == [s[0], s[1]]
  {
  }

  lemma ReadingOnePart(x: (nat, UnitIndex))
    ensures Reading(Join(" ", Punctuated(PhrasesOf([x])))) == Sum([x])
  {
    var ps := [x];
    assert Sum(ps) == Weight(x.0, x.1) + Sum(ps[1..]);
    assert Punctuated(PhrasesOf(ps)) == [Phrase(x.0, x.1)] by {
      assert PhrasesOf(ps) == [Phrase(x.0, x.1)];
    }
    ReadOne(x.0, x.1);
  }

  lemma ReadingTwoParts(x: (nat, UnitIndex), y: (nat, UnitIndex))
    ensures Reading(Join(" ", Punctuated(PhrasesOf([x, y])))) == Sum([x, y])
  {
    var ps := [x, y];
    assert Sum(ps) == Weight(x.0, x.1) + Weight(y.0, y.1) by {
      assert ps[0] == x && ps[1..] == [y];
      assert Sum([y]) == Weight(y.0, y.1) + Sum([y][1..]);
    }
    PunctuatedTwo(x, y);
    ReadTwo(x.0, x.1, y.0, y.1);
  }

  lemma PunctuatedTwo(x: (nat, UnitIndex), y: (nat, UnitIndex))
    ensures Punctuated(PhrasesOf([x, y])) == [Phrase(x.0, x.1), "and", Phrase(y.0, y.1)]
  {
    assert PhrasesOf([x, y]) == [Phrase(x.0, x.1), Phrase(y.0, y.1)];
  }

  lemma PhrasesTail(ps: seq<(nat, UnitIndex)>)
    requires |ps| >= 1
    ensures PhrasesOf(ps[1..]) == PhrasesOf(ps)[1..]
  {
    var a, b := PhrasesOf(ps[1..]), PhrasesOf(ps)[1..];
    forall j | 0 <= j < |a|
      ensures a[j] == b[j]
    {
      assert ps[1..][j] == ps[j + 1];
    }
  }

  /** A single part reads back as its seconds. */
  lemma ReadOne(n: nat, i: nat)
    requires i < |Table|
    ensures Reading(Join(" ", [Phrase(n, i)])) == Weight(n, i)
  {
    PhraseCount(n, i);
    WordPairLast(Digits(n), UnitName(n, i));
  }

  /** A part with its comma, before more parts, reads back as its seconds plus theirs. */
  lemma ReadComma(n: nat, i: nat, rest: seq<string>)
    requires i < |Table| && |rest| >= 1
    ensures Reading(Join(" ", [Phrase(n, i) + ","] + rest)) == Weight(n, i) + Reading(Join(" ", rest))
  {
    var d, u := Digits(n), UnitName(n, i);
    PhraseCount(n, i);
    var ph, j, c := Phrase(n, i), Join(" ", rest), u + ",";
    var q := [ph + ","] + rest;
    assert Join(" ", q) == (ph + ",") + [' '] + j by {
      assert q[0] == ph + "," && q[1..] == rest;
    }
    assert ph + "," == d + [' '] + c by {
      assert ph == d + [' '] + u;
      Regroup(d + [' '], u, ",");
    }
    WordPair(d, c, j);
  }

  lemma Regroup(a: string, b: string, c: string)
    ensures a + b + c == a + (b + c)
  {
  }

  /** Joining two parts around "and". */
  lemma JoinAnd(a: string, b: string)
    ensures Join(" ", [a, "and", b]) == a + [' '] + ("and" + [' '] + b)
  {
    var q := [a, "and", b];
    var t := ["and", b];
    assert t[1..] == [b];
    assert Join(" ", t) == "and" + [' '] + b;
    assert q[1..] == t;
  }

  /** Two parts around "and" read back as the seconds of both. */
  lemma ReadTwo(n0: nat, i0: nat, n1: nat, i1: nat)
    requires i0 < |Table| && i1 < |Table|
    ensures Reading(Join(" ", [Phrase(n0, i0), "and", Phrase(n1, i1)])) == Weight(n0, i0) + Weight(n1, i1)
  {
    var d, u := Digits(n0), UnitName(n0, i0);
    PhraseCount(n0, i0);
    PhraseCount(n1, i1);
    var b := Phrase(n1, i1);
    var r := "and" + [' '] + b;
    JoinAnd(Phrase(n0, i0), b);
    assert Phrase(n0, i0) + [' '] + r == d + [' '] + u + [' '] + r;
    WordPair(d, u, r);
    AndWord(b);
    WordPairLast(Digits(n1), UnitName(n1, i1));
  }

  /** No whole unit fits in zero seconds only, and the phrase is then empty. */
  lemma EmptyPhrase(secs: nat)
    requires PairsUpTo(secs, |Table|) == []
    ensures Relative(secs) == "" && secs == 0
  {
    PairsAddUp(secs);
    PartsArePairs(secs, |Table|);
    assert PartsUpTo(secs, |Table|) == [];
  }

  /** Reading a `relative_time` phrase back gives the seconds it was made from. */
  lemma RelativeReadsBack(secs: nat)
    ensures Reading(Relative(secs)) == secs
  {
    var ps := PairsUpTo(secs, |Table|);
    if ps == [] {
      EmptyPhrase(secs);
      assert Split("", ' ') == [""];
      assert Tally([""]) == Tally([]);
    } else {
      PairsAddUp(secs);
      PartsArePairs(secs, |Table|);
      assert PartsUpTo(secs, |Table|) == PhrasesOf(ps);
      ReadingPhrases(ps);
    }
  }

  /** A unit is written in the plural exactly when there is more than one of it. */
  lemma PluralRule(n: nat, i: nat)
    requires i < |Table| && n >= 1
    ensures EndsWith(UnitName(n, i), "s") <==> n > 1
  {
    var u := UnitName(n, i);
    if n == 1 {
      assert u[|u| - 1] != 's' by {
        assert u == "day" || u == "hour" || u == "minute" || u == "second";
      }
      assert u[|u| - 1..] != "s";
    } else {
      assert u[|u| - 1] == 's';
      assert u[|u| - 1..] == "s";
    }
  }

  /** The phrase is empty exactly for zero seconds. */
  lemma RelativeEmpty(secs: nat)
    ensures Relative(secs) == "" <==> secs == 0
  {
    if Relative(secs) == "" {
      RelativeReadsBack(secs);
      assert Split("", ' ') == [""];
      assert Tally([""]) == Tally([]);
    }
    if secs == 0 {
      assert Amount(0, 0) == 0 && Amount(0, 1) == 0 && Amount(0, 2) == 0 && Amount(0, 3) == 0;
      assert PartsUpTo(0, 2) == [];
      assert PartsUpTo(0, 4) == [];
    }
  }

  /** Sixty-one seconds: one minute and one second. */
  lemma RelativeMinute()
    ensures Relative(61) == "1 minute" + " and " + "1 second"
  {
    PartsOfMinute();
    PunctuatedPair("1 minute", "1 second");
    JoinAnd("1 minute", "1 second");
  }

  lemma PartsOfMinute()
    ensures PartsUpTo(61, |Table|) == ["1 minute", "1 second"]
  {
    assert Amount(61, 0) == 0 && Amount(61, 1) == 0;
    assert Amount(61, 2) == 1 && Amount(61, 3) == 1;
    assert Digits(1) == "1";
    assert UnitName(1, 2) == "minute" && UnitName(1, 3) == "second";
    assert Phrase(1, 2) == "1 minute" && Phrase(1, 3) == "1 second";
    assert PartsUpTo(61, 2) == [];
    assert PartsUpTo(61, 3) == ["1 minute"];
  }

  lemma PunctuatedPair(a: string, b: string)
    ensures Punctuated([a, b]) == [a, "and", b]
  {
  }

  /** A day, an hour, a minute and a second: commas between all but the last two. */
  lemma RelativeAllUnits()
    ensures Relative(90061) == "1 day" + ", " + "1 hour" + ", " + "1 minute" + " and " + "1 second"
  {
    PartsOfAllUnits();
    JoinFour("1 day", "1 hour", "1 minute", "1 second");
  }

  /** Four parts: two commas, then "and". */
  lemma JoinFour(a: string, b: string, c: string, d: string)
    ensures Join(" ", Punctuated([a, b, c, d])) == a + ", " + b + ", " + c + " and " + d
  {
    var parts := [a, b, c, d];
    assert Punctuated(parts) == [a + ",", b + ",", c, "and", d];
    JoinFive(a + ",", b + ",", c, "and", d);
  }

  lemma JoinFive(a: string, b: string, c: string, d: string, e: string)
    ensures Join(" ", [a, b, c, d, e]) == a + " " + b + " " + c + " " + d + " " + e
  {
    JoinCons(d, [e]);
    assert [d] + [e] == [d, e];
    JoinCons(c, [d, e]);
    assert [c] + [d, e] == [c, d, e];
    JoinCons(b, [c, d, e]);
    assert [b] + [c, d, e] == [b, c, d, e];
    JoinCons(a, [b, c, d, e]);
    assert [a] + [b, c, d, e] == [a, b, c, d, e];
  }

  lemma PartsOfAllUnits()
    ensures PartsUpTo(90061, |Table|) == ["1 day", "1 hour", "1 minute", "1 second"]
  {
    AmountsOf90061();
    PhrasesOfOne();
    assert PartsUpTo(90061, 1) == ["1 day"];
    assert PartsUpTo(90061, 2) == ["1 day", "1 hour"];
    assert PartsUpTo(90061, 3) == ["1 day", "1 hour", "1 minute"];
  }

  lemma AmountsOf90061()
    ensures Amount(90061, 0) == 1 && Amount(90061, 1) == 1
    ensures Amount(90061, 2) == 1 && Amount(90061, 3) == 1
  {
    assert Rest(90061, 1) == 3661 && Rest(90061, 2) == 61 && Rest(90061, 3) == 1;
  }

  lemma PhrasesOfOne()
    ensures Phrase(1, 0) == "1 day" && Phrase(1, 1) == "1 hour"
    ensures Phrase(1, 2) == "1 minute" && Phrase(1, 3) == "1 second"
  {
    assert Digits(1) == "1";
    assert UnitName(1, 0) == "day" && UnitName(1, 1) == "hour";
    assert UnitName(1, 2) == "minute" && UnitName(1, 3) == "second";
  }

  lemma JoinCons(a: string, rest: seq<string>)
    requires |rest| >= 1
    ensures Join(" ", [a] + rest) == a + " " + Join(" ", rest)
  {
    assert ([a] + rest)[1..] == rest;
  }
}
