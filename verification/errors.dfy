/** The runtime error: a message tied to a source line. Both generations
    declare the same struct with the same display form (`errors.rs` and
    `interpreter.rs`), so this one module serves both. */
module Errors {
  import opened Basics

  datatype RuntimeError = RuntimeError(line: nat, message: string)

  /** How a runtime error is displayed: the message, then the line in
      brackets. */
  function Display(e: RuntimeError): (s: string)
    ensures |s| >= |e.message| + 10
    ensures s[..|e.message|] == e.message
    ensures s[|e.message|..|e.message| + 8] == " [line: "
    ensures s[|s| - 1] == ']'
  {
    e.message + " [line: " + NatText(e.line) + "]"
  }

  /** The displayed text determines the error: the digits between the
      "[line: " that follows the message and the closing bracket read back
      as the line. */
  lemma DisplayDecodes(e: RuntimeError)
    ensures var s := Display(e);
      var digits := s[|e.message| + 8..|s| - 1];
      && (forall i :: 0 <= i < |digits| ==> '0' <= digits[i] <= '9')
      && DecimalValue(digits) == e.line
  {
    var s := Display(e);
    assert s[|e.message| + 8..|s| - 1] == NatText(e.line);
    NatTextValue(e.line);
  }
}
