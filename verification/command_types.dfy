/** The value types shared by the command parsers (shaken_commands/src/lib.rs). */
module CommandTypes {
  /** The kind of an argument slot: `<key>`, `<key?>` or `<key...>`. */
  datatype ArgKind = Required | Optional | Flexible

  /** Position of a kind in the derived ordering Required < Optional < Flexible. */
  function Rank(k: ArgKind): nat {
    match k
    case Required => 0
    case Optional => 1
    case Flexible => 2
  }

  /** A slot: its key and its kind. */
  datatype Arg = Arg(data: string, ty: ArgKind)

  /** What matching a message against a command yields. */
  datatype ExtractResult =
    | Found(bindings: map<string, string>)
    | Required   // the command matched but a required argument is missing
    | NoMatch

  /** `contains(args, kinds)`: some slot has one of the kinds. */
  predicate HasKind(args: seq<Arg>, kinds: set<ArgKind>) {
    if args == [] then false else args[0].ty in kinds || HasKind(args[1..], kinds)
  }

  lemma {:induction false} HasKindIff(args: seq<Arg>, kinds: set<ArgKind>)
    ensures HasKind(args, kinds) <==> exists i :: 0 <= i < |args| && args[i].ty in kinds
    decreases |args|
  {
    if args != [] {
      HasKindIff(args[1..], kinds);
      if HasKind(args[1..], kinds) {
        var i :| 0 <= i < |args| - 1 && args[1..][i].ty in kinds;
        assert args[i + 1].ty in kinds;
      }
      if exists i :: 0 <= i < |args| && args[i].ty in kinds {
        var i :| 0 <= i < |args| && args[i].ty in kinds;
        if i > 0 {
          assert args[1..][i - 1].ty in kinds;
        }
      }
    }
  }

  /** The keys of the slots. */
  function KeySet(args: seq<Arg>): set<string> {
    set i | 0 <= i < |args| :: args[i].data
  }

  /** The keys in declared order (`Command::keys`). */
  function Keys(args: seq<Arg>): (r: seq<string>)
    ensures |r| == |args| && forall i :: 0 <= i < |args| ==> r[i] == args[i].data
  {
    seq(|args|, i requires 0 <= i < |args| => args[i].data)
  }
}
