/** datalayer/exceptions.py: the library's two error classes. Each keeps
    the offending spec object and formats one message from a class-specific
    prefix, the spec's type name and a detail text that defaults to "". */
module Exceptions {
  import opened Objects
  import Utils

  /** The two subclasses of the library's base class `Error`. */
  datatype ErrorClass = SpecErrorClass | ValidationErrorClass

  /** A raised library error: its class, its `spec` attribute and the
      message passed to Exception.__init__. */
  datatype LibraryError = LibraryError(cls: ErrorClass, spec: Value, message: string)

  function Prefix(cls: ErrorClass): string {
    match cls
    case SpecErrorClass => "invalid spec: "
    case ValidationErrorClass => "invalid value: "
  }

  function Raise(cls: ErrorClass, spec: Value, msg: string): LibraryError {
    LibraryError(cls, spec, Prefix(cls) + Utils.TypeName(spec) + ": " + msg)
  }

  /** SpecError(spec, msg='') */
  function NewSpecError(spec: Value, msg: string := ""): LibraryError {
    Raise(SpecErrorClass, spec, msg)
  }

  /** ValidationError(spec, msg='') */
  function NewValidationError(spec: Value, msg: string := ""): LibraryError {
    Raise(ValidationErrorClass, spec, msg)
  }

  /** The detail text: what follows the prefix, the type name and ": ". */
  function Detail(e: LibraryError): string {
    var start := |Prefix(e.cls)| + |Utils.TypeName(e.spec)| + 2;
    if start <= |e.message| then e.message[start..] else ""
  }

  /** A SpecError keeps the spec it was given, unchanged, and its message
      is made of the prefix, the spec's type name and the detail, with the
      detail recoverable from the message. */
  lemma SpecErrorStoresSpecAndMessage(spec: Value, msg: string)
    ensures NewSpecError(spec, msg).cls == SpecErrorClass
    ensures NewSpecError(spec, msg).spec == spec
    ensures var m := NewSpecError(spec, msg).message;
      |m| == 14 + |Utils.TypeName(spec)| + 2 + |msg| &&
      m[..14] == "invalid spec: " &&
      m[14..14 + |Utils.TypeName(spec)|] == Utils.TypeName(spec) &&
      m[14 + |Utils.TypeName(spec)|..16 + |Utils.TypeName(spec)|] == ": "
    ensures Detail(NewSpecError(spec, msg)) == msg
  {
    MessageParts("invalid spec: ", Utils.TypeName(spec), msg);
  }

  /** The same for a ValidationError, with its own prefix. */
  lemma ValidationErrorStoresSpecAndMessage(spec: Value, msg: string)
    ensures NewValidationError(spec, msg).cls == ValidationErrorClass
    ensures NewValidationError(spec, msg).spec == spec
    ensures var m := NewValidationError(spec, msg).message;
      |m| == 15 + |Utils.TypeName(spec)| + 2 + |msg| &&
      m[..15] == "invalid value: " &&
      m[15..15 + |Utils.TypeName(spec)|] == Utils.TypeName(spec) &&
      m[15 + |Utils.TypeName(spec)|..17 + |Utils.TypeName(spec)|] == ": "
    ensures Detail(NewValidationError(spec, msg)) == msg
  {
    MessageParts("invalid value: ", Utils.TypeName(spec), msg);
  }

  /** A message read back as its prefix, type name, separator and
      detail. */
  lemma MessageParts(p: string, name: string, msg: string)
    ensures var m := p + name + ": " + msg;
      |m| == |p| + |name| + 2 + |msg| &&
      m[..|p|] == p && m[|p|..|p| + |name|] == name &&
      m[|p| + |name|..|p| + |name| + 2] == ": " && m[|p| + |name| + 2..] == msg
  {
    var m := p + name + ": " + msg;
    assert m == p + (name + (": " + msg));
    assert m[|p|..] == name + (": " + msg);
    assert m[|p|..][..|name|] == name;
  }

  /** With the default detail the message ends in ": ". */
  lemma DefaultDetailEndsWithSeparator(cls: ErrorClass, spec: Value)
    ensures var m := Raise(cls, spec, "").message;
      |m| >= 2 && m[|m| - 2..] == ": "
  {
  }

  /** The two classes differ only in their class and message prefix. */
  lemma ClassesDifferOnlyInPrefix(spec: Value, msg: string)
    ensures NewValidationError(spec, msg) ==
      LibraryError(ValidationErrorClass, NewSpecError(spec, msg).spec,
                   "invalid value: " + NewSpecError(spec, msg).message[14..])
  {
    SwapPrefix("invalid spec: ", "invalid value: ", Utils.TypeName(spec), msg);
  }

  /** Replacing the prefix of a message keeps the rest of it. */
  lemma SwapPrefix(p: string, q: string, name: string, msg: string)
    ensures q + (p + name + ": " + msg)[|p|..] == q + name + ": " + msg
  {
    assert p + name + ": " + msg == p + (name + ": " + msg);
  }

  /** The message alone tells the two classes apart, whatever their specs
      and details. */
  lemma MessageIdentifiesClass(spec1: Value, msg1: string, spec2: Value, msg2: string)
    ensures NewSpecError(spec1, msg1).message != NewValidationError(spec2, msg2).message
  {
    assert NewSpecError(spec1, msg1).message[8] == 's';
    assert NewValidationError(spec2, msg2).message[8] == 'v';
  }
}
