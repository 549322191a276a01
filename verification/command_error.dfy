/** Why a help line cannot be turned into a command (shaken_commands/src/error.rs). */
module CommandError {
  import opened Text

  datatype Error =
    | NoCommand
    | DuplicateKey(key: string)
    | InvalidCharacters
    | RequiredInTail
    | OptionalAfterFlex
    | MultipleFlexible

  /** The `Display` text of an error. */
  function Message(e: Error): (m: string)
    ensures e.DuplicateKey? <==> StartsWith(m, "duplicate key found: ")
    ensures e.DuplicateKey? ==> EndsWith(m, e.key)
  {
    var m := match e
      case NoCommand => "a command must be provided"
      case DuplicateKey(key) => "duplicate key found: " + key
      case InvalidCharacters => "only alphanumeric keys are allowed"
      case RequiredInTail => "required cannot follow optional or flexible"
      case OptionalAfterFlex => "optional cannot follow flexible"
      case MultipleFlexible => "only a single flexible argument can exist";
    assert !e.DuplicateKey? ==> m[0] != 'd';
    m
  }

  /** Different errors are displayed differently. */
  lemma MessageInjective(a: Error, b: Error)
    requires Message(a) == Message(b)
    ensures a == b
  {
    if a.DuplicateKey? && b.DuplicateKey? {
      var p := "duplicate key found: ";
      assert a.key == Message(a)[|p|..];
    }
  }
}
